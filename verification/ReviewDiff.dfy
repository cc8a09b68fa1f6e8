/** scripts/review_diff.py: cut a diff into reviewer-sized batches, and name what cannot fit in one. */
module ReviewDiff {
  import opened Text

  const CHARS_PER_TOKEN := 4
  const FILE_HEADER := "diff --git "

  datatype FileDiff = FileDiff(path: string, text: string)

  /** What a finding says. The two causes this file writes keep their numbers; a reviewer's is free text. */
  datatype Problem =
    | OverBudget(tokens: int, budget: int)
    | TooManyBatches(needed: nat, cap: nat)
    | Reported(text: string)

  datatype Finding = Finding(file: string, line: int, rule: string, problem: Problem)

  datatype ReviewBatches = ReviewBatches(batches: seq<string>, tooLarge: seq<Finding>)

  // ---- split_diff ----

  /** `header.rsplit(" b/", 1)[-1]`: what follows the last " b/", or the whole header. */
  function AfterLast(s: string, sep: string): string
    requires sep != ""
  {
    var parts := Split(s, sep);
    parts[|parts| - 1]
  }

  function PieceOf(body: string): FileDiff {
    FileDiff(AfterLast(Split(body, "\n")[0], " b/"), FILE_HEADER + body + "\n")
  }

  function SplitDiff(diff: string): (pieces: seq<FileDiff>)
    ensures forall p :: p in pieces ==> p.text != ""
  {
    var bodies := Split("\n" + diff, "\n" + FILE_HEADER)[1..];
    seq(|bodies|, i requires 0 <= i < |bodies| => PieceOf(bodies[i]))
  }

  function Texts(pieces: seq<FileDiff>): string {
    if pieces == [] then "" else pieces[0].text + Texts(pieces[1..])
  }

  lemma {:induction false} TextsAppend(a: seq<FileDiff>, b: seq<FileDiff>)
    ensures Texts(a + b) == Texts(a) + Texts(b)
  {
    if a == [] {
      assert a + b == b;
    } else {
      TextsAppend(a[1..], b);
      var rest := a[1..] + b;
      assert (a + b)[1..] == rest && (a + b)[0] == a[0];
      assert a[0].text + (Texts(a[1..]) + Texts(b)) == a[0].text + Texts(a[1..]) + Texts(b);
    }
  }

  /** The text of the pieces cut at `header`, without their paths. */
  function Framed(bodies: seq<string>, header: string): string {
    if bodies == [] then "" else header + bodies[0] + "\n" + Framed(bodies[1..], header)
  }

  lemma {:induction false} PiecesAreFramed(bodies: seq<string>)
    ensures Texts(seq(|bodies|, i requires 0 <= i < |bodies| => PieceOf(bodies[i]))) == Framed(bodies, FILE_HEADER)
  {
    if bodies != [] {
      var rest := bodies[1..];
      var pieces := seq(|bodies|, i requires 0 <= i < |bodies| => PieceOf(bodies[i]));
      assert pieces[1..] == seq(|rest|, i requires 0 <= i < |rest| => PieceOf(rest[i]));
      PiecesAreFramed(rest);
    }
  }

  /** Moving each newline from before a header to after its body shifts one newline along the text. */
  lemma {:induction false} FramedIsTheTail(first: string, bodies: seq<string>, header: string)
    ensures first + "\n" + Framed(bodies, header) == Join([first] + bodies, "\n" + header) + "\n"
    decreases |bodies|
  {
    if bodies != [] {
      var sep := "\n" + header;
      FramedIsTheTail(bodies[0], bodies[1..], header);
      assert [bodies[0]] + bodies[1..] == bodies;
      assert ([first] + bodies)[1..] == bodies;
      calc {
        first + "\n" + Framed(bodies, header);
        first + "\n" + header + (bodies[0] + "\n" + Framed(bodies[1..], header));
        first + "\n" + header + (Join(bodies, sep) + "\n");
        Join([first] + bodies, sep) + "\n";
      }
    } else {
      assert [first] + bodies == [first];
    }
  }

  /** The pieces hold the diff from its first file header on, followed by one newline. */
  lemma SplitDiffKeepsTheTail(diff: string)
    ensures var start := Find("\n" + diff, "\n" + FILE_HEADER, 0);
      Texts(SplitDiff(diff)) == if start < 0 then "" else diff[start..] + "\n"
  {
    var text, sep := "\n" + diff, "\n" + FILE_HEADER;
    var parts := Split(text, sep);
    var bodies := parts[1..];
    PiecesAreFramed(bodies);
    if |parts| > 1 {
      FramedIsTheTail(parts[0], bodies, FILE_HEADER);
      assert [parts[0]] + bodies == parts;
      TailOf(parts[0], "\n", Framed(bodies, FILE_HEADER), diff);
    }
  }

  lemma TailOf(first: string, newline: string, framed: string, diff: string)
    requires |newline| == 1
    requires first + newline + framed == newline + diff + newline
    requires |first| <= |diff|
    ensures framed == diff[|first|..] + newline
  {
    var whole := newline + diff + newline;
    assert framed == whole[|first| + 1..];
    assert whole[|first| + 1..] == (diff + newline)[|first|..];
  }

  /** The pieces are the whole diff exactly when the diff opens with a file header. */
  lemma SplitDiffIsLossless(diff: string)
    ensures Texts(SplitDiff(diff)) == diff + "\n" <==> StartsWith(diff, FILE_HEADER)
  {
    var text, sep := "\n" + diff, "\n" + FILE_HEADER;
    SplitDiffKeepsTheTail(diff);
    ShiftedOccurrence("\n", diff, FILE_HEADER);
    var start := Find(text, sep, 0);
    if start > 0 {
      assert |diff[start..] + "\n"| < |diff + "\n"|;
    }
  }

  lemma ShiftedOccurrence(newline: string, diff: string, header: string)
    requires |newline| == 1
    ensures OccursAt(newline + diff, 0, newline + header) <==> StartsWith(diff, header)
  {
    if |header| <= |diff| {
      assert (newline + diff)[0..1 + |header|] == newline + diff[0..|header|];
      assert (newline + diff[0..|header|])[1..] == diff[0..|header|];
      assert (newline + header)[1..] == header;
    }
  }

  // ---- _batches ----

  /** The batches still to come when `current` is being filled. */
  function Greedy(current: string, pieces: seq<FileDiff>, budget: int): seq<string>
    decreases |pieces|
  {
    if pieces == [] then (if current == "" then [] else [current])
    else if current != "" && |current| + |pieces[0].text| > budget then
      [current] + Greedy(pieces[0].text, pieces[1..], budget)
    else Greedy(current + pieces[0].text, pieces[1..], budget)
  }

  method Batches(pieces: seq<FileDiff>, budget: int) returns (batches: seq<string>)
    ensures batches == Greedy("", pieces, budget)
  {
    batches := [];
    var current := "";
    for i := 0 to |pieces|
      invariant batches + Greedy(current, pieces[i..], budget) == Greedy("", pieces, budget)
    {
      assert pieces[i..][1..] == pieces[i + 1..];
      ghost var before, done := current, batches;
      assert "" + pieces[i].text == pieces[i].text;
      if current != "" && |current| + |pieces[i].text| > budget {
        batches := batches + [current];
        current := "";
      }
      current := current + pieces[i].text;
      assert batches + Greedy(current, pieces[i + 1..], budget) == done + Greedy(before, pieces[i..], budget);
    }
    if current != "" {
      batches := batches + [current];
    }
  }

  lemma {:induction false} BatchesConcatenate(current: string, pieces: seq<FileDiff>, budget: int)
    ensures Flatten(Greedy(current, pieces, budget)) == current + Texts(pieces)
    decreases |pieces|
  {
    if pieces != [] {
      var next, rest := pieces[0].text, pieces[1..];
      BatchesConcatenate(next, rest, budget);
      BatchesConcatenate(current + next, rest, budget);
      assert [current] + Greedy(next, rest, budget) == [current] + Greedy(next, rest, budget);
      assert ([current] + Greedy(next, rest, budget))[1..] == Greedy(next, rest, budget);
    }
  }

  lemma {:induction false} BatchesFit(current: string, pieces: seq<FileDiff>, budget: int)
    requires |current| <= budget || current == ""
    requires forall p :: p in pieces ==> |p.text| <= budget
    ensures forall b :: b in Greedy(current, pieces, budget) ==> |b| <= budget
    decreases |pieces|
  {
    if pieces != [] {
      if current != "" && |current| + |pieces[0].text| > budget {
        BatchesFit(pieces[0].text, pieces[1..], budget);
      } else {
        assert pieces[0] in pieces;
        BatchesFit(current + pieces[0].text, pieces[1..], budget);
      }
    }
  }

  /** An order-preserving grouping of `pieces` with every group within `budget`. */
  ghost predicate Grouping(groups: seq<seq<FileDiff>>, pieces: seq<FileDiff>, budget: int) {
    && Flatten(groups) == pieces
    && forall g :: g in groups ==> |Texts(g)| <= budget
  }

  /**
   * No grouping uses fewer groups: with `current` already started the greedy cut needs at most one
   * batch more than any grouping of the rest, and none more when `current` and the first group fit together.
   */
  lemma {:induction false} GreedyIsOptimal(current: string, pieces: seq<FileDiff>, budget: int, groups: seq<seq<FileDiff>>)
    requires Grouping(groups, pieces, budget)
    ensures |Greedy(current, pieces, budget)| <= 1 + |groups|
    ensures groups != [] && |current| + |Texts(groups[0])| <= budget ==> |Greedy(current, pieces, budget)| <= |groups|
    decreases |pieces|, |groups|
  {
    if groups != [] && pieces != [] {
      var head, tail := groups[0], groups[1..];
      if head == [] {
        assert Flatten(groups) == Flatten(tail);
        GreedyIsOptimal(current, pieces, budget, tail);
      } else {
        var next, rest := pieces[0].text, pieces[1..];
        var groups' := [head[1..]] + tail;
        assert Flatten(groups) == head + Flatten(tail);
        assert groups'[1..] == tail;
        assert rest == Flatten(groups');
        assert head[0] == pieces[0];
        assert Texts(head) == next + Texts(head[1..]);
        assert Grouping(groups', rest, budget) by {
          forall g | g in groups' ensures |Texts(g)| <= budget {
            if g != head[1..] { assert g in groups; } else { assert head in groups; }
          }
        }
        assert |Texts(head)| <= budget;
        GreedyIsOptimal(next, rest, budget, groups');
        GreedyIsOptimal(current + next, rest, budget, groups');
      }
    }
  }

  /** The greedy cut itself as a grouping. */
  function GreedyGroups(current: seq<FileDiff>, pieces: seq<FileDiff>, budget: int): seq<seq<FileDiff>>
    decreases |pieces|
  {
    if pieces == [] then (if current == [] then [] else [current])
    else if current != [] && |Texts(current)| + |pieces[0].text| > budget then
      [current] + GreedyGroups([pieces[0]], pieces[1..], budget)
    else GreedyGroups(current + [pieces[0]], pieces[1..], budget)
  }

  lemma {:induction false} GreedyIsAGrouping(current: seq<FileDiff>, pieces: seq<FileDiff>, budget: int)
    requires forall p :: p in current + pieces ==> p.text != ""
    requires forall p :: p in pieces ==> |p.text| <= budget
    requires current != [] ==> |Texts(current)| <= budget
    ensures Grouping(GreedyGroups(current, pieces, budget), current + pieces, budget)
    ensures |GreedyGroups(current, pieces, budget)| == |Greedy(Texts(current), pieces, budget)|
    decreases |pieces|
  {
    assert current != [] ==> current[0] in current + pieces;
    assert current != [] <==> Texts(current) != "";
    if pieces == [] {
      assert current + pieces == current;
      assert Flatten([current]) == current + Flatten<FileDiff>([]);
    } else {
      var next, rest := pieces[0], pieces[1..];
      assert pieces[0] in current + pieces;
      assert [next] + rest == pieces;
      assert forall p :: p in rest ==> p in pieces && p in current + pieces;
      if current != [] && |Texts(current)| + |next.text| > budget {
        GreedyIsAGrouping([next], rest, budget);
        assert Texts([next]) == next.text + Texts([]) == next.text;
        var tail := GreedyGroups([next], rest, budget);
        assert ([current] + tail)[1..] == tail;
      } else {
        TextsAppend(current, [next]);
        assert Texts([next]) == next.text + Texts([]) == next.text;
        assert current + [next] + rest == current + pieces;
        assert forall p :: p in current + [next] + rest ==> p in current + pieces;
        GreedyIsAGrouping(current + [next], rest, budget);
      }
    }
  }

  // ---- pack ----

  /** The finding for a piece over the budget on its own. */
  function OverBudgetFinding(piece: FileDiff, budgetTokens: int): Finding {
    Finding(piece.path, 1, "too-large", OverBudget(|piece.text| / CHARS_PER_TOKEN, budgetTokens))
  }

  predicate Oversized(piece: FileDiff, budgetTokens: int) {
    |piece.text| > budgetTokens * CHARS_PER_TOKEN
  }

  function OversizedFindings(pieces: seq<FileDiff>, budgetTokens: int): (found: seq<Finding>)
    ensures found == [] <==> forall p :: p in pieces ==> |p.text| <= budgetTokens * CHARS_PER_TOKEN
  {
    if pieces == [] then []
    else
      var rest := OversizedFindings(pieces[1..], budgetTokens);
      if Oversized(pieces[0], budgetTokens) then
        assert pieces[0] in pieces;
        [OverBudgetFinding(pieces[0], budgetTokens)] + rest
      else rest
  }

  /** How many pieces are over the budget. */
  function OversizedCount(pieces: seq<FileDiff>, budgetTokens: int): nat {
    if pieces == [] then 0
    else (if Oversized(pieces[0], budgetTokens) then 1 else 0) + OversizedCount(pieces[1..], budgetTokens)
  }

  /** There is one finding for each piece over the budget, and for no other. */
  lemma {:induction false} OversizedAreNamed(pieces: seq<FileDiff>, budgetTokens: int)
    ensures var found := OversizedFindings(pieces, budgetTokens);
      && |found| == OversizedCount(pieces, budgetTokens)
      && (forall p :: p in pieces && Oversized(p, budgetTokens) ==> OverBudgetFinding(p, budgetTokens) in found)
      && (forall f :: f in found ==> exists p :: p in pieces && Oversized(p, budgetTokens) && f == OverBudgetFinding(p, budgetTokens))
  {
    if pieces != [] {
      OversizedAreNamed(pieces[1..], budgetTokens);
      assert pieces == [pieces[0]] + pieces[1..];
      assert pieces[0] in pieces;
    }
  }

  function Pack(pieces: seq<FileDiff>, budgetTokens: int, maxBatches: nat): ReviewBatches {
    var oversized := OversizedFindings(pieces, budgetTokens);
    if oversized != [] then ReviewBatches([], oversized)
    else
      var batches := Greedy("", pieces, budgetTokens * CHARS_PER_TOKEN);
      if |batches| > maxBatches then
        assert pieces != [];
        ReviewBatches([], [Finding(pieces[0].path, 1, "too-large", TooManyBatches(|batches|, maxBatches))])
      else ReviewBatches(batches, [])
  }

  /** `pack` refuses exactly when no order-preserving grouping within the budget has at most `maxBatches` groups. */
  lemma PackRefusesOnlyTheImpossible(pieces: seq<FileDiff>, budgetTokens: int, maxBatches: nat)
    requires forall p :: p in pieces ==> p.text != ""
    ensures Pack(pieces, budgetTokens, maxBatches).tooLarge == [] <==>
      exists groups :: Grouping(groups, pieces, budgetTokens * CHARS_PER_TOKEN) && |groups| <= maxBatches
  {
    var budget := budgetTokens * CHARS_PER_TOKEN;
    if OversizedFindings(pieces, budgetTokens) == [] {
      GreedyIsAGrouping([], pieces, budget);
      assert [] + pieces == pieces;
      assert |GreedyGroups([], pieces, budget)| == |Greedy("", pieces, budget)|;
      forall groups | Grouping(groups, pieces, budget)
        ensures |Greedy("", pieces, budget)| <= |groups|
      {
        GreedyIsOptimal("", pieces, budget, groups);
        if groups != [] {
          assert groups[0] in groups;
        }
      }
    } else {
      var p :| p in pieces && |p.text| > budget;
      forall groups | Flatten(groups) == pieces
        ensures !Grouping(groups, pieces, budget)
      {
        OversizedPieceFitsNoGroup(p, groups);
      }
    }
  }

  lemma {:induction false} PieceWithinTexts(p: FileDiff, g: seq<FileDiff>)
    requires p in g
    ensures |Texts(g)| >= |p.text|
  {
    if p != g[0] {
      PieceWithinTexts(p, g[1..]);
    }
  }

  lemma {:induction false} OversizedPieceFitsNoGroup(p: FileDiff, groups: seq<seq<FileDiff>>)
    requires p in Flatten(groups)
    ensures exists g :: g in groups && |Texts(g)| >= |p.text|
  {
    if p in groups[0] {
      PieceWithinTexts(p, groups[0]);
    } else {
      OversizedPieceFitsNoGroup(p, groups[1..]);
    }
  }

  /** A plan that is not refused hands the reviewer the whole diff, in order, each batch within the budget. */
  lemma PlanCoversTheDiff(diff: string, budgetTokens: int, maxBatches: nat)
    requires Pack(SplitDiff(diff), budgetTokens, maxBatches).tooLarge == []
    ensures var plan := Pack(SplitDiff(diff), budgetTokens, maxBatches);
      && |plan.batches| <= maxBatches
      && (forall b :: b in plan.batches ==> |b| <= budgetTokens * CHARS_PER_TOKEN)
      && (Flatten(plan.batches) == diff + "\n" <==> StartsWith(diff, FILE_HEADER))
  {
    var pieces := SplitDiff(diff);
    BatchesConcatenate("", pieces, budgetTokens * CHARS_PER_TOKEN);
    BatchesFit("", pieces, budgetTokens * CHARS_PER_TOKEN);
    SplitDiffIsLossless(diff);
  }
}
