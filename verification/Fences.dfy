/**
 * farrier/farrier/hook_managers.py: the fenced region farrier keeps inside a hook file the user also edits.
 *
 * A text is handled by its lines. `Lines` is Python's `splitlines`, every line boundary included, so that what the laws
 * need of a text's line endings is stated rather than assumed.
 */
module Fences {
  import opened Collections
  import opened Wrappers
  import opened Text

  const NL := "\n"
  const FENCE_START := "# >>> farrier: hooks (generated) >>>"
  const FENCE_END := "# <<< farrier: hooks <<<"

  // ---- lines ----

  predicate Unbroken(line: string) {
    forall k :: 0 <= k < |line| ==> !IsBreak(line[k])
  }

  predicate AllUnbroken(lines: seq<string>) {
    forall k :: 0 <= k < |lines| ==> Unbroken(lines[k])
  }

  function FirstBreak(s: string): (i: nat)
    ensures i <= |s| && (i < |s| ==> IsBreak(s[i]))
    ensures forall k :: 0 <= k < i ==> !IsBreak(s[k])
  {
    if s == "" || IsBreak(s[0]) then 0 else
      var i := FirstBreak(s[1..]);
      assert forall k :: 0 < k < i + 1 ==> s[k] == s[1..][k - 1];
      i + 1
  }

  /** Where the line after the break at `i` starts: `\r\n` is one break. */
  function AfterBreak(s: string, i: nat): (j: nat)
    requires i < |s|
    ensures i < j <= |s|
  {
    if s[i] == '\r' && i + 1 < |s| && s[i + 1] == '\n' then i + 2 else i + 1
  }

  /** `splitlines`. */
  function Lines(s: string): (lines: seq<string>)
    ensures AllUnbroken(lines)
    decreases |s|
  {
    if s == "" then []
    else
      var i := FirstBreak(s);
      if i == |s| then [s] else [s[..i]] + Lines(s[AfterBreak(s, i)..])
  }

  /** Lines, each ended by a newline. */
  function Ended(lines: seq<string>): string {
    if lines == [] then "" else lines[0] + NL + Ended(lines[1..])
  }

  /** A text whose only line boundary is the newline. */
  predicate NewlinesOnly(s: string) {
    forall k :: 0 <= k < |s| && IsBreak(s[k]) ==> s[k] == '\n'
  }

  predicate EndsWithNewline(s: string) {
    s != "" && s[|s| - 1] == '\n'
  }

  lemma FirstBreakIs(s: string, i: nat)
    requires i < |s| && IsBreak(s[i]) && forall k :: 0 <= k < i ==> !IsBreak(s[k])
    ensures FirstBreak(s) == i
  {
  }

  /** Text after a whole line does not change where the line is cut. */
  lemma CutBeforeMore(p: string, s: string)
    requires EndsWithNewline(p)
    ensures var i := FirstBreak(p);
      && i < |p| && IsBreak(p[i]) && FirstBreak(p + s) == i
      && AfterBreak(p + s, i) == AfterBreak(p, i)
      && (p + s)[..i] == p[..i]
      && (p + s)[AfterBreak(p, i)..] == p[AfterBreak(p, i)..] + s
      && (AfterBreak(p, i) < |p| ==> EndsWithNewline(p[AfterBreak(p, i)..]))
  {
    assert IsBreak('\n');
    hide IsBreak;
    var i := FirstBreak(p);
    assert i < |p|;
    FirstBreakIs(p + s, i);
  }

  lemma {:induction false} LinesConcat(p: string, s: string)
    requires p == "" || EndsWithNewline(p)
    ensures Lines(p + s) == Lines(p) + Lines(s)
    decreases |p|
  {
    if p == "" {
      assert p + s == s;
    } else {
      CutBeforeMore(p, s);
      hide IsBreak, AfterBreak, FirstBreak;
      var i := FirstBreak(p);
      var rest := p[AfterBreak(p, i)..];
      LinesConcat(rest, s);
      Assoc([p[..i]], Lines(rest), Lines(s));
    }
  }

  lemma LinesOfEndedLine(line: string)
    requires Unbroken(line)
    ensures Lines(line + NL) == [line]
  {
    var s := line + NL;
    assert s[..|line|] == line;
    FirstBreakIs(s, |line|);
    assert s[|s|..] == "";
  }

  lemma LinesOfLine(line: string)
    requires Unbroken(line)
    ensures Lines(line) == if line == "" then [] else [line]
  {
  }

  lemma EndedEndsWithNewline(lines: seq<string>)
    ensures lines == [] || EndsWithNewline(Ended(lines))
  {
  }

  /** Splitting ended lines gives them back. */
  lemma {:induction false} LinesOfEnded(lines: seq<string>)
    requires AllUnbroken(lines)
    ensures Lines(Ended(lines)) == lines
  {
    if lines != [] {
      LinesOfEnded(lines[1..]);
      LinesOfEndedLine(lines[0]);
      LinesConcat(lines[0] + NL, Ended(lines[1..]));
      assert lines == [lines[0]] + lines[1..];
    }
  }

  lemma {:induction false} EndedConcat(a: seq<string>, b: seq<string>)
    ensures Ended(a + b) == Ended(a) + Ended(b)
  {
    if a == [] {
      assert a + b == b;
    } else {
      EndedConcat(a[1..], b);
      assert (a + b)[1..] == a[1..] + b;
      Assoc(a[0] + NL, Ended(a[1..]), Ended(b));
    }
  }

  lemma {:induction false} EndedIsNewlinesOnly(lines: seq<string>)
    requires AllUnbroken(lines)
    ensures NewlinesOnly(Ended(lines))
  {
    if lines != [] {
      EndedIsNewlinesOnly(lines[1..]);
      var s := Ended(lines);
      forall k | 0 <= k < |s| && IsBreak(s[k]) ensures s[k] == '\n' {
        if |lines[0]| < k {
          assert s[k] == Ended(lines[1..])[k - |lines[0]| - 1];
        }
      }
    }
  }

  /** `"\n".join(lines)` is the ended lines without the last newline. */
  lemma {:induction false} JoinedIsEnded(lines: seq<string>)
    requires lines != []
    ensures Join(lines, NL) + NL == Ended(lines)
  {
    if |lines| > 1 {
      JoinedIsEnded(lines[1..]);
      assert lines[0] + NL + Join(lines[1..], NL) + NL == lines[0] + NL + (Join(lines[1..], NL) + NL);
    }
  }

  lemma {:induction false} JoinSnoc(init: seq<string>, last: string)
    ensures Join(init + [last], NL) == Ended(init) + last
  {
    var lines := init + [last];
    if init != [] {
      JoinSnoc(init[1..], last);
      assert lines[1..] == init[1..] + [last] && lines[0] == init[0];
      Assoc(init[0] + NL, Ended(init[1..]), last);
    }
  }

  predicate LastNonEmpty(lines: seq<string>) {
    lines != [] && lines[|lines| - 1] != ""
  }

  lemma JoinEnds(lines: seq<string>)
    requires AllUnbroken(lines) && LastNonEmpty(lines)
    ensures Join(lines, NL) != "" && !EndsWithNewline(Join(lines, NL))
    ensures Lines(Join(lines, NL)) == lines
  {
    var init, last := lines[..|lines| - 1], lines[|lines| - 1];
    assert lines == init + [last];
    JoinSnoc(init, last);
    var joined := Ended(init) + last;
    assert joined[|joined| - 1] == last[|last| - 1];
    EndedEndsWithNewline(init);
    LinesConcat(Ended(init), last);
    LinesOfEnded(init);
    LinesOfLine(last);
  }

  // ---- stripping newlines ----

  /** `s.rstrip("\n")`. */
  function RStrip(s: string): string {
    if EndsWithNewline(s) then RStrip(s[..|s| - 1]) else s
  }

  /** `s.strip("\n")`. */
  function Strip(s: string): string {
    LStrip(RStrip(s))
  }

  function LStrip(s: string): string {
    if s != "" && s[0] == '\n' then LStrip(s[1..]) else s
  }

  /** The lines without the empty ones at the end. */
  function Trim(lines: seq<string>): (r: seq<string>)
    ensures r == [] || LastNonEmpty(r)
    ensures r <= lines
  {
    if lines != [] && lines[|lines| - 1] == "" then Trim(lines[..|lines| - 1]) else lines
  }

  lemma {:induction false} TrimAfter(lines: seq<string>, tail: seq<string>)
    requires LastNonEmpty(lines)
    ensures Trim(lines + tail) == lines + Trim(tail)
    decreases |tail|
  {
    if tail == [] {
      assert lines + tail == lines;
    } else {
      var n := |tail| - 1;
      assert (lines + tail)[..|lines + tail| - 1] == lines + tail[..n];
      TrimAfter(lines, tail[..n]);
    }
  }

  lemma {:induction false} RStripJoin(lines: seq<string>)
    requires AllUnbroken(lines)
    ensures RStrip(Join(lines, NL)) == Join(Trim(lines), NL)
    decreases |lines|
  {
    if lines != [] {
      var init, last := lines[..|lines| - 1], lines[|lines| - 1];
      assert lines == init + [last];
      if last != "" {
        JoinEnds(lines);
      } else if init != [] {
        JoinSnoc(init, last);
        JoinedIsEnded(init);
        var joined := Join(lines, NL);
        assert joined == Join(init, NL) + NL;
        assert joined[..|joined| - 1] == Join(init, NL);
        RStripJoin(init);
      }
    }
  }

  // ---- the fence ----

  /** `list.index`. */
  function Index(lines: seq<string>, line: string): (i: nat)
    requires line in lines
    ensures i < |lines| && lines[i] == line && forall k :: 0 <= k < i ==> lines[k] != line
  {
    if lines[0] == line then 0 else 1 + Index(lines[1..], line)
  }

  function Fence(body: string): string {
    FENCE_START + NL + Strip(body) + NL + FENCE_END + NL
  }

  predicate Fenced(lines: seq<string>) {
    FENCE_START in lines && FENCE_END in lines
  }

  /** The text a block is appended to: ended by a newline unless empty. */
  function Prefix(existing: string): string {
    if existing != "" && !EndsWithNewline(existing) then existing + NL else existing
  }

  function Splice(existing: string, block: string): string {
    var lines := Lines(existing);
    if Fenced(lines) then
      var head := lines[..Index(lines, FENCE_START)];
      var tail := lines[Index(lines, FENCE_END) + 1..];
      RStrip(Join(head + Lines(RStrip(block)) + tail, NL)) + NL
    else Prefix(existing) + block
  }

  function Unsplice(existing: string): string {
    var lines := Lines(existing);
    if !Fenced(lines) then existing
    else
      var head := lines[..Index(lines, FENCE_START)];
      var tail := lines[Index(lines, FENCE_END) + 1..];
      var body := RStrip(Join(head + tail, NL));
      if body != "" then body + NL else ""
  }

  /** `lines[start + 1 : end]`, empty when the end comes first. */
  function Between(lines: seq<string>): seq<string>
    requires Fenced(lines)
  {
    var start, end := Index(lines, FENCE_START), Index(lines, FENCE_END);
    if start + 1 <= end then lines[start + 1..end] else []
  }

  function FencedBody(existing: string): Option<string> {
    var lines := Lines(existing);
    if Fenced(lines) then Some(Join(Between(lines), NL)) else None
  }

  // ---- what splicing does to the lines ----

  /** A body farrier can fence: no marker inside, no empty line at either end. */
  predicate CleanBody(body: seq<string>) {
    AllUnbroken(body) && LastNonEmpty(body) && body[0] != "" && FENCE_START !in body && FENCE_END !in body
  }

  function Block(body: seq<string>): seq<string> {
    [FENCE_START] + body + [FENCE_END]
  }

  lemma MarkersUnbroken()
    ensures Unbroken(FENCE_START) && Unbroken(FENCE_END) && FENCE_START != FENCE_END
  {
    assert FENCE_START[2] == '>' && FENCE_END[2] == '<';
  }

  lemma StripJoin(body: seq<string>)
    requires CleanBody(body)
    ensures Strip(Join(body, NL)) == Join(body, NL)
  {
    JoinEnds(body);
    assert Unbroken(body[0]) && !IsBreak(body[0][0]);
    assert Join(body, NL)[0] == body[0][0];
  }

  lemma FenceIsEnded(body: seq<string>)
    requires CleanBody(body)
    ensures Fence(Join(body, NL)) == Ended(Block(body))
  {
    StripJoin(body);
    JoinedIsEnded(body);
    EndedConcat([FENCE_START], body);
    EndedConcat([FENCE_START] + body, [FENCE_END]);
    hide Join, Strip;
    assert Ended([FENCE_START]) == FENCE_START + NL;
    assert Ended([FENCE_END]) == FENCE_END + NL;
    var joined := Join(body, NL);
    Assoc(FENCE_START + NL, joined, NL);
    Assoc(FENCE_START + NL + joined + NL, FENCE_END, NL);
  }

  lemma BlockUnbroken(body: seq<string>)
    requires CleanBody(body)
    ensures AllUnbroken(Block(body)) && LastNonEmpty(Block(body))
  {
    MarkersUnbroken();
    hide Unbroken;
  }

  lemma BlockLines(body: seq<string>)
    requires CleanBody(body)
    ensures Lines(RStrip(Fence(Join(body, NL)))) == Block(body)
  {
    FenceIsEnded(body);
    BlockUnbroken(body);
    var block := Block(body);
    JoinedIsEnded(block);
    JoinEnds(block);
    var joined := Join(block, NL);
    hide Join, Ended, Block, Fence, Lines;
    assert (joined + NL)[..|joined + NL| - 1] == joined;
  }

  /** The lines after a splice. */
  function SplicedLines(existing: string, body: seq<string>): seq<string> {
    var lines := Lines(existing);
    if Fenced(lines) then
      lines[..Index(lines, FENCE_START)] + Block(body) + Trim(lines[Index(lines, FENCE_END) + 1..])
    else Lines(Prefix(existing)) + Block(body)
  }

  lemma SpliceFenced(existing: string, body: seq<string>)
    requires CleanBody(body) && Fenced(Lines(existing))
    ensures Splice(existing, Fence(Join(body, NL))) == Ended(SplicedLines(existing, body))
  {
    BlockLines(body);
    BlockUnbroken(body);
    hide Fence;
    SpliceBlock(existing, Fence(Join(body, NL)), body);
  }

  lemma JoinStripped(before: seq<string>, tail: seq<string>)
    requires AllUnbroken(before + tail) && LastNonEmpty(before)
    ensures RStrip(Join(before + tail, NL)) + NL == Ended(before + Trim(tail))
  {
    hide Join, Ended, RStrip, Unbroken, Trim;
    RStripJoin(before + tail);
    TrimAfter(before, tail);
    JoinedIsEnded(before + Trim(tail));
  }

  lemma LastOf(a: seq<string>, b: seq<string>)
    requires LastNonEmpty(b)
    ensures LastNonEmpty(a + b)
  {
  }

  lemma SpliceBlock(existing: string, block: string, body: seq<string>)
    requires Fenced(Lines(existing)) && Lines(RStrip(block)) == Block(body) && AllUnbroken(Block(body)) && LastNonEmpty(Block(body))
    ensures Splice(existing, block) == Ended(SplicedLines(existing, body))
  {
    hide Join, Ended, Block, Lines, RStrip, Unbroken, Index, Trim, LastNonEmpty;
    var lines := Lines(existing);
    var before := lines[..Index(lines, FENCE_START)] + Block(body);
    var tail := lines[Index(lines, FENCE_END) + 1..];
    LastOf(lines[..Index(lines, FENCE_START)], Block(body));
    JoinStripped(before, tail);
  }

  lemma SplicedUnbroken(existing: string, body: seq<string>)
    requires CleanBody(body)
    ensures AllUnbroken(SplicedLines(existing, body))
  {
    BlockUnbroken(body);
    var lines := Lines(existing);
    hide Unbroken, Block, Index, Lines, CleanBody, Trim;
    if Fenced(lines) {
      var tail := lines[Index(lines, FENCE_END) + 1..];
      UnbrokenParts(lines[..Index(lines, FENCE_START)], Block(body), Trim(tail));
    } else {
      UnbrokenParts(Lines(Prefix(existing)), Block(body), []);
      assert Lines(Prefix(existing)) + Block(body) + [] == Lines(Prefix(existing)) + Block(body);
    }
  }

  lemma UnbrokenParts(a: seq<string>, b: seq<string>, c: seq<string>)
    requires AllUnbroken(a) && AllUnbroken(b) && AllUnbroken(c)
    ensures AllUnbroken(a + b + c)
  {
  }

  lemma SpliceShape(existing: string, body: seq<string>)
    requires CleanBody(body)
    ensures var after := Splice(existing, Fence(Join(body, NL)));
      && Lines(after) == SplicedLines(existing, body)
      && after == if Fenced(Lines(existing)) then Ended(SplicedLines(existing, body)) else Prefix(existing) + Ended(Block(body))
  {
    if Fenced(Lines(existing)) {
      SpliceFenced(existing, body);
      SplicedUnbroken(existing, body);
      LinesOfEnded(SplicedLines(existing, body));
    } else {
      FenceIsEnded(body);
      BlockUnbroken(body);
      hide Fence, Block, Ended, CleanBody, Unbroken, Lines;
      LinesConcat(Prefix(existing), Ended(Block(body)));
      LinesOfEnded(Block(body));
    }
  }

  // ---- what is read back ----

  /** Neither marker, or both with the first start before the first end. */
  predicate WellFenced(lines: seq<string>) {
    if Fenced(lines) then Index(lines, FENCE_START) < Index(lines, FENCE_END)
    else FENCE_START !in lines && FENCE_END !in lines
  }

  lemma IndexIs(lines: seq<string>, line: string, i: nat)
    requires i < |lines| && lines[i] == line && forall k :: 0 <= k < i ==> lines[k] != line
    ensures line in lines && Index(lines, line) == i
  {
    assert line in lines;
  }

  /** The lines around and of a block, by index. */
  lemma BlockAt(head: seq<string>, body: seq<string>, tail: seq<string>)
    ensures var lines, end := head + Block(body) + tail, |head| + |body| + 1;
      && end < |lines| && lines[|head|] == FENCE_START && lines[end] == FENCE_END
      && (forall k :: 0 <= k < |head| ==> lines[k] == head[k])
      && (body != [] ==> lines[end - 1] == body[|body| - 1])
  {
  }

  /** A stray end before the block hides it. */
  lemma StrayEndHides(head: seq<string>, body: seq<string>, tail: seq<string>)
    requires CleanBody(body) && FENCE_START !in head && FENCE_END in head
    ensures var lines := head + Block(body) + tail; Fenced(lines) && Between(lines) == []
  {
    var lines := head + Block(body) + tail;
    hide CleanBody;
    assert forall k :: 0 <= k < |head| ==> lines[k] == head[k];
    assert lines[|head|] == FENCE_START;
    IndexIs(lines, FENCE_END, Index(head, FENCE_END));
    IndexIs(lines, FENCE_START, |head|);
  }

  /** The first end after a head without one is the block's. */
  lemma EndIsTheBlocks(head: seq<string>, body: seq<string>, tail: seq<string>)
    requires CleanBody(body) && FENCE_END !in head
    ensures var lines := head + Block(body) + tail; FENCE_END in lines && Index(lines, FENCE_END) == |head| + |body| + 1
  {
    MarkersUnbroken();
    hide Unbroken;
    var lines := head + Block(body) + tail;
    var end := |head| + |body| + 1;
    assert lines[end] == FENCE_END;
    forall k | 0 <= k < end ensures lines[k] != FENCE_END {
      if k < |head| {
        assert lines[k] == head[k];
      } else if |head| < k {
        assert lines[k] == body[k - |head| - 1];
      }
    }
    IndexIs(lines, FENCE_END, end);
  }

  /** A block after lines that hold no marker is what is found. */
  lemma BlockIsFound(head: seq<string>, body: seq<string>, tail: seq<string>)
    requires CleanBody(body) && FENCE_START !in head && FENCE_END !in head
    ensures var lines := head + Block(body) + tail;
      && Fenced(lines) && Between(lines) == body
      && Index(lines, FENCE_START) == |head| && Index(lines, FENCE_END) == |head| + |body| + 1
  {
    EndIsTheBlocks(head, body, tail);
    hide Unbroken, CleanBody;
    var lines := head + Block(body) + tail;
    assert forall k :: 0 <= k < |head| ==> lines[k] == head[k];
    assert lines[|head|] == FENCE_START;
    IndexIs(lines, FENCE_START, |head|);
    BodyOfBlock(head, body, tail);
  }

  lemma BodyOfBlock(head: seq<string>, body: seq<string>, tail: seq<string>)
    ensures |head + Block(body) + tail| >= |head| + |body| + 2
    ensures (head + Block(body) + tail)[|head| + 1..|head| + |body| + 1] == body
  {
    var lines := head + Block(body) + tail;
    var between := lines[|head| + 1..|head| + |body| + 1];
    assert forall k :: 0 <= k < |body| ==> between[k] == lines[|head| + 1 + k] == body[k];
  }

  /** A stray start before the block takes in all from there. */
  lemma StrayStartHides(head: seq<string>, body: seq<string>, tail: seq<string>)
    requires CleanBody(body) && FENCE_START in head && FENCE_END !in head
    ensures var lines := head + Block(body) + tail;
      Fenced(lines) && FENCE_START in Between(lines) && LastNonEmpty(Between(lines))
  {
    EndIsTheBlocks(head, body, tail);
    BlockAt(head, body, tail);
    assert body != [] && body[|body| - 1] != "";
    hide CleanBody, Block;
    var lines := head + Block(body) + tail;
    var start, end := Index(head, FENCE_START), |head| + |body| + 1;
    IndexIs(lines, FENCE_START, start);
    BetweenIs(lines, start, end);
    hide Between;
    SliceHolds(lines, start + 1, end, |head|);
  }

  lemma BetweenIs(lines: seq<string>, start: nat, end: nat)
    requires Fenced(lines) && Index(lines, FENCE_START) == start && Index(lines, FENCE_END) == end && start < end
    ensures Between(lines) == lines[start + 1..end]
  {
  }

  lemma SliceHolds(lines: seq<string>, a: nat, b: nat, k: nat)
    requires a <= k < b <= |lines|
    ensures lines[k] in lines[a..b] && lines[a..b] != [] && lines[a..b][|lines[a..b]| - 1] == lines[b - 1]
  {
    assert lines[a..b][k - a] == lines[k];
  }

  lemma JoinNothing()
    ensures Join([], NL) == ""
  {
  }

  lemma JoinInjective(a: seq<string>, b: seq<string>)
    requires AllUnbroken(a) && LastNonEmpty(a) && AllUnbroken(b) && LastNonEmpty(b) && Join(a, NL) == Join(b, NL)
    ensures a == b
  {
    JoinEnds(a);
    JoinEnds(b);
  }

  predicate Unmarked(lines: seq<string>) {
    FENCE_START !in lines && FENCE_END !in lines
  }

  /** What is read back is the block's body exactly when no marker stands before it. */
  lemma ReadBackExactlyWhen(head: seq<string>, body: seq<string>, tail: seq<string>)
    requires CleanBody(body) && AllUnbroken(head) && AllUnbroken(tail) && !Fenced(head)
    ensures var lines := head + Block(body) + tail;
      Fenced(lines) && (Join(Between(lines), NL) == Join(body, NL) <==> Unmarked(head))
  {
    var lines := head + Block(body) + tail;
    BlockUnbroken(body);
    if FENCE_START !in head && FENCE_END !in head {
      BlockIsFound(head, body, tail);
    } else {
      JoinEnds(body);
      hide Block, Join;
      if FENCE_END in head {
        StrayEndHides(head, body, tail);
        assert Join([], NL) == "" by { JoinNothing(); }
      } else {
        StrayStartHides(head, body, tail);
        if Join(Between(lines), NL) == Join(body, NL) {
          JoinInjective(Between(lines), body);
        }
      }
    }
  }

  lemma FirstBreakOfMore(text: string, more: string)
    requires FirstBreak(text) < |text|
    ensures FirstBreak(text + more) == FirstBreak(text)
  {
    hide IsBreak;
    FirstBreakIs(text + more, FirstBreak(text));
  }

  lemma DropOfConcat<T>(a: seq<T>, b: seq<T>, j: nat)
    requires j <= |a|
    ensures (a + b)[j..] == a[j..] + b && (a + b)[..j] == a[..j]
  {
  }

  lemma TailEnds(text: string, j: nat)
    requires j < |text|
    ensures text[j..] != "" && (EndsWithNewline(text[j..]) <==> EndsWithNewline(text))
  {
  }

  /** A newline after a text that ends in another break adds an empty line, unless the two are one break. */
  lemma LastBreak(text: string)
    requires text != "" && !EndsWithNewline(text) && FirstBreak(text) < |text| && AfterBreak(text, FirstBreak(text)) == |text|
    ensures Lines(text + NL) == Lines(text) || Lines(text + NL) == Lines(text) + [""]
  {
    var i := FirstBreak(text);
    hide IsBreak, FirstBreak, Lines;
    FirstBreakOfMore(text, NL);
    LinesToTheEnd(text);
    if text[i] == '\r' {
      DropOfConcat(text, NL, i);
      LinesToTheEnd(text + NL);
    } else {
      NewlineAlone(text, i);
    }
  }

  lemma NewlineAlone(text: string, i: nat)
    requires i + 1 == |text| && text[i] != '\r' && FirstBreak(text + NL) == i
    ensures Lines(text + NL) == [text[..i]] + [""]
  {
    hide FirstBreak, Lines;
    LinesStep(text + NL);
    LastLineButOne(text, i);
    DropOfConcat(text, NL, i);
  }

  lemma LinesToTheEnd(text: string)
    requires FirstBreak(text) < |text| && AfterBreak(text, FirstBreak(text)) == |text|
    ensures Lines(text) == [text[..FirstBreak(text)]]
  {
    hide IsBreak, FirstBreak;
    assert text[|text|..] == "";
  }

  lemma LastLineButOne(text: string, i: nat)
    requires i + 1 == |text| && text[i] != '\r'
    ensures AfterBreak(text + NL, i) == |text|
    ensures Lines((text + NL)[|text|..]) == [""]
  {
    assert (text + NL)[|text|..] == "" + NL;
    LinesOfEndedLine("");
  }

  lemma CutBeforeNewline(text: string)
    requires text != "" && !EndsWithNewline(text) && FirstBreak(text) < |text| && AfterBreak(text, FirstBreak(text)) < |text|
    ensures var i, j := FirstBreak(text), AfterBreak(text, FirstBreak(text));
      && Lines(text + NL) == [text[..i]] + Lines(text[j..] + NL)
      && Lines(text) == [text[..i]] + Lines(text[j..])
      && text[j..] != "" && !EndsWithNewline(text[j..])
  {
    var i, j := FirstBreak(text), AfterBreak(text, FirstBreak(text));
    hide IsBreak, Lines, FirstBreak;
    FirstBreakOfMore(text, NL);
    LinesStep(text);
    LinesStep(text + NL);
    assert AfterBreak(text + NL, i) == j;
    hide AfterBreak;
    DropOfConcat(text, NL, i);
    DropOfConcat(text, NL, j);
    TailEnds(text, j);
  }

  lemma LinesStep(text: string)
    requires FirstBreak(text) < |text|
    ensures var i := FirstBreak(text); Lines(text) == [text[..i]] + Lines(text[AfterBreak(text, i)..])
  {
  }

  lemma {:induction false} NewlineAfter(text: string)
    requires text != "" && !EndsWithNewline(text)
    ensures Lines(text + NL) == Lines(text) || Lines(text + NL) == Lines(text) + [""]
    decreases |text|
  {
    var i := FirstBreak(text);
    if i == |text| {
      LinesOfEndedLine(text);
      LinesOfLine(text);
    } else {
      var j := AfterBreak(text, i);
      if j == |text| {
        LastBreak(text);
      } else {
        CutBeforeNewline(text);
        hide Lines, IsBreak;
        NewlineAfter(text[j..]);
        Assoc([text[..i]], Lines(text[j..]), [""]);
      }
    }
  }

  /** A prefix has the lines of the text, and at most an empty one more. */
  lemma PrefixLines(existing: string)
    ensures Lines(Prefix(existing)) == Lines(existing) || Lines(Prefix(existing)) == Lines(existing) + [""]
  {
    if existing != "" && !EndsWithNewline(existing) {
      NewlineAfter(existing);
    }
  }

  /** Before the first start stands no start, and an end exactly when the text is not well fenced. */
  lemma HeadOfFenced(lines: seq<string>)
    requires Fenced(lines)
    ensures var head := lines[..Index(lines, FENCE_START)];
      !Fenced(head) && (Unmarked(head) <==> WellFenced(lines))
  {
    MarkersUnbroken();
    hide Unbroken;
    var start, end := Index(lines, FENCE_START), Index(lines, FENCE_END);
    if end < start {
      assert lines[..start][end] == FENCE_END;
    }
  }

  lemma UnbrokenOutside(lines: seq<string>, i: nat, j: nat)
    requires AllUnbroken(lines) && i <= |lines| && j <= |lines|
    ensures AllUnbroken(lines[..i]) && AllUnbroken(Trim(lines[j..]))
  {
    hide Unbroken, Trim;
    var tail := lines[j..];
    forall k | 0 <= k < |Trim(tail)| ensures Unbroken(Trim(tail)[k]) {
      assert Trim(tail)[k] == tail[k] == lines[j + k];
    }
  }

  lemma SplicedOfFenced(existing: string, body: seq<string>)
    requires Fenced(Lines(existing))
    ensures var lines := Lines(existing);
      SplicedLines(existing, body)
      == lines[..Index(lines, FENCE_START)] + Block(body) + Trim(lines[Index(lines, FENCE_END) + 1..])
  {
    hide Lines, Index, Trim, Block, Prefix, Fenced, Unbroken, AllUnbroken;
  }

  lemma FencedReadsBack(existing: string, body: seq<string>)
    requires CleanBody(body) && Fenced(Lines(existing))
    ensures var after := SplicedLines(existing, body);
      Fenced(after) && (Join(Between(after), NL) == Join(body, NL) <==> WellFenced(Lines(existing)))
  {
    hide Lines, Index, Trim, Block, SplicedLines, CleanBody, Between, WellFenced, AllUnbroken, Unmarked, Join, Fenced;
    var lines := Lines(existing);
    SplicedOfFenced(existing, body);
    HeadOfFenced(lines);
    UnbrokenOutside(lines, Index(lines, FENCE_START), Index(lines, FENCE_END) + 1);
    ReadBackExactlyWhen(lines[..Index(lines, FENCE_START)], body, Trim(lines[Index(lines, FENCE_END) + 1..]));
  }

  lemma UnfencedReadsBack(existing: string, body: seq<string>)
    requires CleanBody(body) && !Fenced(Lines(existing))
    ensures var after := SplicedLines(existing, body);
      Fenced(after) && (Join(Between(after), NL) == Join(body, NL) <==> WellFenced(Lines(existing)))
  {
    PrefixLines(existing);
    hide Unbroken, Join, Block, CleanBody, Lines, Between;
    var head := Lines(Prefix(existing));
    assert head + Block(body) + [] == head + Block(body);
    NotEmpty();
    ReadBackExactlyWhen(head, body, []);
  }

  lemma NotEmpty()
    ensures FENCE_START != "" && FENCE_END != ""
  {
  }

  /**
   * What farrier fences into a text it reads back, exactly when the text had neither marker, or its first start came
   * before its first end. A lone marker, or an end before the start, breaks it for every such text.
   */
  lemma SpliceReadsBackExactlyWhen(existing: string, body: seq<string>)
    requires CleanBody(body)
    ensures FencedBody(Splice(existing, Fence(Join(body, NL)))) == Some(Join(body, NL)) <==> WellFenced(Lines(existing))
  {
    SpliceShape(existing, body);
    hide Splice, Fence, Lines, Join, CleanBody, Between, Block, Prefix, Index, SplicedLines, WellFenced, Fenced;
    if Fenced(Lines(existing)) {
      FencedReadsBack(existing, body);
    } else {
      UnfencedReadsBack(existing, body);
    }
  }

  // ---- texts splicing leaves alone ----

  /** A text of whole lines, each ended by a newline, the last one not empty. */
  predicate Canonical(text: string) {
    LastNonEmpty(Lines(text)) && text == Ended(Lines(text))
  }

  lemma {:induction false} NewlinesOnlyIsEnded(text: string)
    requires NewlinesOnly(text) && (text == "" || EndsWithNewline(text))
    ensures text == Ended(Lines(text))
    decreases |text|
  {
    if text != "" {
      var i := FirstBreak(text);
      assert IsBreak(text[|text| - 1]);
      var rest := text[i + 1..];
      assert text == text[..i] + NL + rest;
      NewlinesOnlyIsEnded(rest);
    }
  }

  lemma PrefixKeepsBreaks(existing: string)
    requires NewlinesOnly(Prefix(existing))
    ensures NewlinesOnly(existing)
  {
    hide IsBreak;
    assert forall k :: 0 <= k < |existing| ==> existing[k] == Prefix(existing)[k];
  }

  lemma PrefixIsEndedExactlyWhen(existing: string)
    ensures Prefix(existing) == Ended(Lines(Prefix(existing))) <==> NewlinesOnly(existing)
  {
    var p := Prefix(existing);
    if NewlinesOnly(existing) {
      assert IsBreak('\n');
      hide IsBreak;
      NewlinesOnlyIsEnded(p);
    } else if p == Ended(Lines(p)) {
      EndedIsNewlinesOnly(Lines(p));
      PrefixKeepsBreaks(existing);
    }
  }

  lemma JoinedBodyIsBody(between: seq<string>, body: seq<string>)
    requires CleanBody(body) && AllUnbroken(between) && Join(between, NL) == Join(body, NL)
    ensures between == body
  {
    JoinEnds(body);
    if between != [] && !LastNonEmpty(between) {
      var init := between[..|between| - 1];
      assert between == init + [""];
      JoinSnoc(init, "");
      EndedEndsWithNewline(init);
    }
    JoinInjective(between, body);
  }

  /** Splicing leaves a text alone exactly when its fence holds the body and it is whole lines up to a last one that is not empty. */
  lemma SpliceFixesExactlyWhen(text: string, body: seq<string>)
    requires CleanBody(body)
    ensures Splice(text, Fence(Join(body, NL))) == text <==> FencedBody(text) == Some(Join(body, NL)) && Canonical(text)
  {
    hide Splice, Fence, Join, CleanBody, Block;
    if Splice(text, Fence(Join(body, NL))) == text {
      FixedIsCanonical(text, body);
      SpliceReadsBackExactlyWhen(text, body);
    } else if FencedBody(text) == Some(Join(body, NL)) && Canonical(text) {
      CanonicalIsFixed(text, body);
    }
  }

  lemma CanonicalIsFixed(text: string, body: seq<string>)
    requires CleanBody(body) && FencedBody(text) == Some(Join(body, NL)) && Canonical(text)
    ensures Splice(text, Fence(Join(body, NL))) == text
  {
    hide Splice, Fence, Lines, Index, Unbroken, Join, Between, Block, Ended, SplicedLines, Fenced, Trim, CleanBody;
    var lines := Lines(text);
    CleanBodyIsSome(body);
    BetweenUnbroken(lines);
    JoinedBodyIsBody(Between(lines), body);
    FenceSplits(lines, body);
    SplicedOfFenced(text, body);
    SpliceShape(text, body);
  }

  lemma BetweenUnbroken(lines: seq<string>)
    requires Fenced(lines) && AllUnbroken(lines)
    ensures AllUnbroken(Between(lines))
  {
    hide Unbroken, Index;
  }

  lemma CleanBodyIsSome(body: seq<string>)
    requires CleanBody(body)
    ensures body != []
  {
  }

  lemma FenceSplits(lines: seq<string>, body: seq<string>)
    requires Fenced(lines) && LastNonEmpty(lines) && body != [] && Between(lines) == body
    ensures var start, end := Index(lines, FENCE_START), Index(lines, FENCE_END);
      lines == lines[..start] + Block(body) + Trim(lines[end + 1..])
  {
    hide Index, Trim;
    var start, end := Index(lines, FENCE_START), Index(lines, FENCE_END);
    TrimOfFull(lines, end + 1);
    BlockSplits(lines, start, end, body);
  }

  lemma BlockSplits(lines: seq<string>, start: nat, end: nat, body: seq<string>)
    requires start < end < |lines| && lines[start] == FENCE_START && lines[end] == FENCE_END && lines[start + 1..end] == body
    ensures lines == lines[..start] + Block(body) + lines[end + 1..]
  {
    SplitAround(lines, start, end);
  }

  lemma TrimOfFull(lines: seq<string>, j: nat)
    requires LastNonEmpty(lines) && j <= |lines|
    ensures Trim(lines[j..]) == lines[j..]
  {
  }

  lemma SplitAround<T>(s: seq<T>, i: nat, j: nat)
    requires i < j < |s|
    ensures s == s[..i] + ([s[i]] + s[i + 1..j] + [s[j]]) + s[j + 1..]
  {
  }

  lemma FixedIsCanonical(text: string, body: seq<string>)
    requires CleanBody(body) && Splice(text, Fence(Join(body, NL))) == text
    ensures Canonical(text) && WellFenced(Lines(text))
  {
    SpliceShape(text, body);
    var lines := Lines(text);
    hide Splice, Fence, Lines, Unbroken, Join;
    assert Ended(Block(body)) != "";
    var start, end := Index(lines, FENCE_START), Index(lines, FENCE_END);
    NotEmpty();
    assert LastNonEmpty(SplicedLines(text, body));
    if end < start {
      TrimKeeps(lines[end + 1..]);
    }
  }

  lemma TrimKeeps(lines: seq<string>)
    requires LastNonEmpty(lines)
    ensures Trim(lines) == lines
  {
  }

  lemma SplicedEndsFull(existing: string, body: seq<string>)
    ensures LastNonEmpty(SplicedLines(existing, body))
  {
    NotEmpty();
    hide Lines, Index, Prefix;
  }

  lemma SplicedIsCanonicalExactlyWhen(existing: string, body: seq<string>)
    requires CleanBody(body)
    ensures Canonical(Splice(existing, Fence(Join(body, NL)))) <==> Fenced(Lines(existing)) || NewlinesOnly(existing)
  {
    SpliceShape(existing, body);
    PrefixIsEndedExactlyWhen(existing);
    EndedConcat(Lines(Prefix(existing)), Block(body));
    SplicedEndsFull(existing, body);
    hide Splice, Fence, Lines, Index, Unbroken, Join, Prefix, CleanBody, Ended, NewlinesOnly, Trim, LastNonEmpty, Block;
    if !Fenced(Lines(existing)) {
      SameTail(Prefix(existing), Ended(Lines(Prefix(existing))), Ended(Block(body)));
    }
  }

  lemma SameTail<T>(a: seq<T>, b: seq<T>, tail: seq<T>)
    ensures a + tail == b + tail <==> a == b
  {
    if a + tail == b + tail {
      assert |a| == |b|;
      assert a == (a + tail)[..|a|] == b;
    }
  }

  predicate Settles(existing: string) {
    WellFenced(Lines(existing)) && (Fenced(Lines(existing)) || NewlinesOnly(existing))
  }

  /** Splicing the same body again changes nothing, exactly for well-fenced texts that are fenced or have only newlines. */
  lemma SpliceTwiceExactlyWhen(existing: string, body: seq<string>)
    requires CleanBody(body)
    ensures var block := Fence(Join(body, NL));
      (Splice(Splice(existing, block), block) == Splice(existing, block)) <==> Settles(existing)
  {
    hide Splice, Fence, Join, Lines, FencedBody, Canonical, WellFenced, Fenced, NewlinesOnly, CleanBody;
    SpliceReadsBackExactlyWhen(existing, body);
    SplicedIsCanonicalExactlyWhen(existing, body);
    SpliceFixesExactlyWhen(Splice(existing, Fence(Join(body, NL))), body);
  }

  // ---- taking the fence out ----

  /** `x` without its trailing newlines, and one put back unless nothing is left. */
  function OneNewline(text: string): string {
    if RStrip(text) == "" then "" else RStrip(text) + NL
  }

  lemma UnspliceShape(lines: seq<string>)
    requires AllUnbroken(lines)
    ensures OneNewline(Join(lines, NL)) == Ended(Trim(lines))
  {
    RStripJoin(lines);
    var kept := Trim(lines);
    if kept != [] {
      JoinEnds(kept);
      JoinedIsEnded(kept);
    }
  }

  /** The lines outside the fence. */
  function Outside(lines: seq<string>): (rest: seq<string>)
    requires Fenced(lines)
    ensures AllUnbroken(lines) ==> AllUnbroken(rest)
  {
    lines[..Index(lines, FENCE_START)] + lines[Index(lines, FENCE_END) + 1..]
  }

  /** The lines outside the fence stay, but for empty ones at the end. */
  lemma UnspliceKeepsTheRest(existing: string)
    requires Fenced(Lines(existing))
    ensures Lines(Unsplice(existing)) == Trim(Outside(Lines(existing)))
    ensures Fenced(Lines(Unsplice(existing))) <==> Fenced(Outside(Lines(existing)))
  {
    var rest := Outside(Lines(existing));
    NotEmpty();
    assert Unsplice(existing) == OneNewline(Join(rest, NL));
    hide Unsplice, OneNewline, Join, Lines, Index, Unbroken, Trim, Outside;
    UnspliceShape(rest);
    LinesOfEnded(Trim(rest));
    TrimKeepsMember(rest, FENCE_START);
    TrimKeepsMember(rest, FENCE_END);
  }

  lemma {:induction false} TrimKeepsMember(lines: seq<string>, line: string)
    requires line != ""
    ensures line in Trim(lines) <==> line in lines
  {
    if lines != [] && lines[|lines| - 1] == "" {
      var init := lines[..|lines| - 1];
      TrimKeepsMember(init, line);
      assert lines == init + [""];
    }
  }

  lemma {:induction false} RStripTwice(text: string)
    ensures RStrip(text + NL) == RStrip(text)
    ensures NewlinesOnly(RStrip(text)) <==> NewlinesOnly(text)
  {
    assert (text + NL)[..|text + NL| - 1] == text;
    if EndsWithNewline(text) {
      var shorter := text[..|text| - 1];
      RStripTwice(shorter);
      hide IsBreak;
      assert text == shorter + NL;
    }
  }

  lemma UnspliceOfAppended(head: seq<string>, body: seq<string>, after: string)
    requires AllUnbroken(head) && Lines(after) == head + Block(body) && Fenced(Lines(after))
    requires Index(Lines(after), FENCE_START) == |head| && Index(Lines(after), FENCE_END) == |head| + |body| + 1
    ensures Unsplice(after) == Ended(Trim(head))
  {
    var lines := Lines(after);
    assert lines[..|head|] == head && lines[|head| + |body| + 2..] == [];
    assert head + [] == head;
    UnspliceShape(head);
  }

  lemma OneNewlineKeepsBreaks(text: string)
    ensures NewlinesOnly(OneNewline(text)) <==> NewlinesOnly(text)
  {
    RStripTwice(text);
    hide IsBreak;
    var stripped := RStrip(text);
    assert forall k :: 0 <= k < |stripped| ==> (stripped + NL)[k] == stripped[k];
  }

  lemma OneNewlineOfPrefix(existing: string)
    ensures OneNewline(Prefix(existing)) == OneNewline(existing)
  {
    RStripTwice(existing);
  }

  lemma UnspliceOfEnded(lines: seq<string>)
    requires AllUnbroken(lines)
    ensures OneNewline(Ended(lines)) == Ended(Trim(lines))
  {
    if lines != [] {
      UnspliceShape(lines);
      JoinedIsEnded(lines);
      RStripTwice(Join(lines, NL));
    }
  }

  lemma AppendedUnsplices(existing: string, body: seq<string>)
    requires CleanBody(body) && FENCE_START !in Lines(existing) && FENCE_END !in Lines(existing)
    ensures Unsplice(Splice(existing, Fence(Join(body, NL)))) == Ended(Trim(Lines(Prefix(existing))))
  {
    var head := Lines(Prefix(existing));
    PrefixLines(existing);
    NotEmpty();
    SpliceShape(existing, body);
    hide Splice, Fence, Lines, Join, CleanBody, Unsplice, Block, Prefix, Trim;
    BlockIsFound(head, body, []);
    assert head + Block(body) + [] == head + Block(body);
    UnspliceOfAppended(head, body, Splice(existing, Fence(Join(body, NL))));
  }

  /** Taking the fence out of a text that had none gives the text back, up to its newlines at the end, exactly when newlines are its only breaks. */
  lemma UnspliceUndoesExactlyWhen(existing: string, body: seq<string>)
    requires CleanBody(body) && FENCE_START !in Lines(existing) && FENCE_END !in Lines(existing)
    ensures Unsplice(Splice(existing, Fence(Join(body, NL)))) == OneNewline(existing) <==> NewlinesOnly(existing)
  {
    var head := Lines(Prefix(existing));
    AppendedUnsplices(existing, body);
    hide Splice, Fence, Lines, Join, CleanBody, Unsplice, Block, Prefix;
    EndedIsNewlinesOnly(Trim(head));
    OneNewlineKeepsBreaks(existing);
    if NewlinesOnly(existing) {
      PrefixIsEndedExactlyWhen(existing);
      OneNewlineOfPrefix(existing);
      UnspliceOfEnded(head);
    }
  }

  // ---- installing ----

  datatype Manager = PreCommit | Lefthook | Husky | Githooks

  const HOOK_COMMAND := "make farrier-run-hook"
  const LEGACY_HOOK_MARKER := "# >>> farrier: " + "staged-files gate (generated) >>>"

  function FenceFile(manager: Manager): string {
    match manager
    case PreCommit => ".pre-commit-config.yaml"
    case Lefthook => "lefthook.yml"
    case Husky => ".husky/pre-commit"
    case Githooks => ".githooks/pre-commit"
  }

  /** `body_for`, as lines. */
  function BodyLines(manager: Manager): seq<string> {
    match manager
    case PreCommit => [
      "  - repo: local", "    hooks:", "      - id: farrier-hooks",
      "        name: farrier generated-file " + "gate and skill hooks", "        entry: make farrier-run-hook",
      "        language: system", "        pass_filenames: false", "        stages: [pre-commit]"]
    case Lefthook => ["extends:", "  - .agents/lefthook.farrier.yml"]
    case Husky => [HOOK_COMMAND]
    case Githooks => [HOOK_COMMAND]
  }

  const PREAMBLE_LINES := [
    "#!/bin/sh", "# The repo's pre-commit hook. " + "Farrier owns only the fenced " + "region below; anything",
    "# outside it is yours and " + "survives `farrier install`.", "set -eu"]

  const SHELL_PREAMBLE := Ended(PREAMBLE_LINES)

  function BodyFor(manager: Manager): string {
    Join(BodyLines(manager), NL)
  }

  predicate Blank(text: string) {
    forall k :: 0 <= k < |text| ==> IsSpace(text[k])
  }

  /** What the fence goes into: a file of the older layout is started afresh, and a shell hook gets its first lines. */
  function Existing(manager: Manager, file: Option<string>): string {
    var found := file.GetOr("");
    var text := if Find(found, LEGACY_HOOK_MARKER, 0) >= 0 then "" else found;
    if (manager.Husky? || manager.Githooks?) && Blank(text) then SHELL_PREAMBLE else text
  }

  const REPOS := "repos:"

  predicate HasRepos(lines: seq<string>) {
    exists k :: 0 <= k < |lines| && StartsWith(lines[k], REPOS)
  }

  /** The fence spliced in, before the `repos:` line that may go on top. */
  function Desired(manager: Manager, file: Option<string>): string {
    Splice(Existing(manager, file), Fence(BodyFor(manager)))
  }

  /** The text `install_manager` leaves in the manager's file. */
  function InstallText(manager: Manager, file: Option<string>): string {
    var desired := Desired(manager, file);
    if manager.PreCommit? && !HasRepos(Lines(desired)) then REPOS + NL + desired else desired
  }

  /** `fence_drift` for one manager: the file is missing, or its fence does not hold the body. */
  predicate Drifted(manager: Manager, file: Option<string>) {
    file.None? || FencedBody(file.value) != Some(BodyFor(manager))
  }

  /** Printable ASCII with no `#`: no line boundary, and no marker, all of which start with one. */
  predicate Plain(line: string) {
    line != "" && forall k :: 0 <= k < |line| ==> ' ' <= line[k] <= '~' && line[k] != '#'
  }

  lemma PlainIsClean(body: seq<string>)
    requires body != [] && forall k :: 0 <= k < |body| ==> Plain(body[k])
    ensures CleanBody(body)
  {
    assert FENCE_START[0] == '#' && FENCE_END[0] == '#';
    assert !Plain(FENCE_START) && !Plain(FENCE_END);
    forall k | 0 <= k < |body| ensures Unbroken(body[k]) {
      assert Plain(body[k]);
    }
  }

  lemma PreCommitHeadIsPlain()
    ensures Plain("  - repo: local") && Plain("    hooks:") && Plain("      - id: farrier-hooks")
    ensures Plain("        entry: make farrier-run-hook")
  {
  }

  lemma PreCommitNameIsPlain()
    ensures Plain("        name: farrier generated-file " + "gate and skill hooks")
  {
    assert Plain("        name: farrier generated-file ");
    assert Plain("gate and skill hooks");
  }

  lemma PreCommitTailIsPlain()
    ensures Plain("        language: system") && Plain("        pass_filenames: false")
    ensures Plain("        stages: [pre-commit]")
  {
  }

  lemma PreCommitIsPlain()
    ensures forall k :: 0 <= k < |BodyLines(PreCommit)| ==> Plain(BodyLines(PreCommit)[k])
  {
    PreCommitHeadIsPlain();
    PreCommitNameIsPlain();
    PreCommitTailIsPlain();
    hide Plain;
  }

  lemma OthersArePlain(manager: Manager)
    requires manager != PreCommit
    ensures forall k :: 0 <= k < |BodyLines(manager)| ==> Plain(BodyLines(manager)[k])
  {
    assert Plain("extends:");
    assert Plain("  - .agents/lefthook.farrier.yml");
    assert Plain(HOOK_COMMAND);
  }

  lemma BodiesAreClean(manager: Manager)
    ensures CleanBody(BodyLines(manager))
    ensures forall k :: 0 <= k < |BodyLines(manager)| ==> Plain(BodyLines(manager)[k])
  {
    if manager == PreCommit {
      PreCommitIsPlain();
    } else {
      OthersArePlain(manager);
    }
    assert BodyLines(manager) != [];
    hide Plain, CleanBody, BodyLines;
    PlainIsClean(BodyLines(manager));
  }

  // ---- a marker is in a text when it is in one of its lines ----

  ghost predicate Has(text: string, needle: string) {
    exists i: nat :: OccursAt(text, i, needle)
  }

  ghost predicate SomeLineHas(lines: seq<string>, needle: string) {
    exists k :: 0 <= k < |lines| && Has(lines[k], needle)
  }

  lemma NoBreakInside(text: string, at: nat, needle: string)
    requires Unbroken(needle) && OccursAt(text, at, needle)
    ensures forall k :: at <= k < at + |needle| ==> !IsBreak(text[k])
  {
    forall k | at <= k < at + |needle| ensures !IsBreak(text[k]) {
      assert text[k] == text[at..at + |needle|][k - at];
    }
  }

  lemma OccursInTail(text: string, needle: string, at: nat, j: nat)
    requires OccursAt(text, at, needle) && j <= at
    ensures OccursAt(text[j..], at - j, needle)
  {
    SliceOfSlice(text, j, |text|, at - j, at - j + |needle|);
  }

  lemma OccursInHead(text: string, needle: string, at: nat, i: nat)
    requires OccursAt(text, at, needle) && at + |needle| <= i <= |text|
    ensures Has(text[..i], needle)
  {
    SliceOfSlice(text, 0, i, at, at + |needle|);
    assert OccursAt(text[..i], at, needle);
  }

  lemma SomeLineBelow(top: string, below: seq<string>, needle: string)
    requires SomeLineHas(below, needle)
    ensures SomeLineHas([top] + below, needle)
  {
    var k :| 0 <= k < |below| && Has(below[k], needle);
    assert ([top] + below)[k + 1] == below[k];
  }

  lemma {:induction false} HasInALine(text: string, needle: string, at: nat)
    requires needle != "" && Unbroken(needle) && OccursAt(text, at, needle)
    ensures SomeLineHas(Lines(text), needle)
    decreases |text|
  {
    NoBreakInside(text, at, needle);
    assert IsBreak('\n');
    var i := FirstBreak(text);
    hide IsBreak, FirstBreak, Unbroken;
    if at + |needle| <= i {
      OccursInHead(text, needle, at, i);
      assert text[..i] == Lines(text)[0];
    } else {
      var j := AfterBreak(text, i);
      assert j <= at;
      hide OccursAt, Has, AfterBreak, Lines;
      OccursInTail(text, needle, at, j);
      HasInALine(text[j..], needle, at - j);
      LinesStep(text);
      SomeLineBelow(text[..i], Lines(text[j..]), needle);
    }
  }

  lemma SliceOfSlice<T>(s: seq<T>, from: nat, to: nat, i: nat, j: nat)
    requires from <= to <= |s| && i <= j <= to - from
    ensures s[from..to][i..j] == s[from + i..from + j]
  {
    var a, b := s[from..to][i..j], s[from + i..from + j];
    assert forall k :: 0 <= k < |a| ==> a[k] == b[k];
  }

  lemma OccursInPart(text: string, from: nat, to: nat, needle: string)
    requires from <= to <= |text| && Has(text[from..to], needle)
    ensures Has(text, needle)
  {
    var at: nat :| OccursAt(text[from..to], at, needle);
    SliceOfSlice(text, from, to, at, at + |needle|);
    assert OccursAt(text, from + at, needle);
  }

  lemma {:induction false} LineIsInText(text: string, needle: string)
    requires SomeLineHas(Lines(text), needle)
    ensures Has(text, needle)
    decreases |text|
  {
    var k :| 0 <= k < |Lines(text)| && Has(Lines(text)[k], needle);
    hide Has, IsBreak, FirstBreak;
    var i := FirstBreak(text);
    assert text[0..i] == text[..i] && text[..|text|] == text;
    if k == 0 {
      OccursInPart(text, 0, i, needle);
    } else {
      var rest := text[AfterBreak(text, i)..|text|];
      assert Lines(text)[k] == Lines(rest)[k - 1];
      LineIsInText(rest, needle);
      OccursInPart(text, AfterBreak(text, i), |text|, needle);
    }
  }

  // ---- installing twice ----

  lemma MarkerFacts()
    ensures |LEGACY_HOOK_MARKER| == 48 && LEGACY_HOOK_MARKER[0] == '#' && LEGACY_HOOK_MARKER[2] == '>'
    ensures |FENCE_START| == 36 && |FENCE_END| == 24
  {
  }

  lemma LegacyUnbroken()
    ensures Unbroken(LEGACY_HOOK_MARKER) && LEGACY_HOOK_MARKER != ""
  {
    assert Unbroken("# >>> farrier: ");
    assert Unbroken("staged-files gate (generated) >>>");
    hide IsBreak;
  }

  lemma LegacyTakes(line: string)
    requires Has(line, LEGACY_HOOK_MARKER)
    ensures |line| >= 48 && '#' in line && '>' in line
  {
    MarkerFacts();
    var at: nat :| OccursAt(line, at, LEGACY_HOOK_MARKER);
    assert line[at..at + 48][0] == line[at] && line[at..at + 48][2] == line[at + 2];
    assert line[at] in line && line[at + 2] in line;
  }

  lemma NoLegacyIn(line: string)
    requires |line| < 48 || '#' !in line || '>' !in line
    ensures !Has(line, LEGACY_HOOK_MARKER)
  {
    if Has(line, LEGACY_HOOK_MARKER) {
      LegacyTakes(line);
    }
  }

  lemma PlainHasNoLegacy(line: string)
    requires Plain(line)
    ensures !Has(line, LEGACY_HOOK_MARKER)
  {
    NoLegacyIn(line);
  }

  lemma BlockHasNoLegacy(manager: Manager)
    ensures !SomeLineHas(Block(BodyLines(manager)), LEGACY_HOOK_MARKER)
  {
    MarkerFacts();
    NoLegacyIn(FENCE_START);
    NoLegacyIn(FENCE_END);
    BodiesAreClean(manager);
    var body := BodyLines(manager);
    hide Plain, BodyLines, Has, Unbroken, CleanBody;
    forall k | 0 <= k < |Block(body)| ensures !Has(Block(body)[k], LEGACY_HOOK_MARKER) {
      if 0 < k <= |body| {
        PlainHasNoLegacy(body[k - 1]);
        assert Block(body)[k] == body[k - 1];
      }
    }
  }

  /** Splicing brings no line in but those of the block and perhaps an empty one. */
  lemma SplicedLineIsKnown(existing: string, body: seq<string>, k: nat)
    requires k < |SplicedLines(existing, body)|
    ensures var line := SplicedLines(existing, body)[k];
      line == "" || line in Lines(existing) || line in Block(body)
  {
    var lines := Lines(existing);
    if Fenced(lines) {
      SplicedOfFenced(existing, body);
      hide SplicedLines, Lines, Block, Index, Trim, Fenced;
      KnownLine(lines, Index(lines, FENCE_START), Block(body), Index(lines, FENCE_END) + 1, k);
    } else {
      PrefixLines(existing);
      hide Lines, Block, Prefix;
      LineOfTwo(Lines(Prefix(existing)), Block(body), k);
    }
  }

  lemma KnownLine(lines: seq<string>, i: nat, block: seq<string>, j: nat, k: nat)
    requires i <= |lines| && j <= |lines| && k < |lines[..i] + block + Trim(lines[j..])|
    ensures var line := (lines[..i] + block + Trim(lines[j..]))[k]; line in lines || line in block
  {
    hide Trim;
    LineOfParts(lines[..i], block, Trim(lines[j..]), k);
    var line := (lines[..i] + block + Trim(lines[j..]))[k];
    if line in Trim(lines[j..]) {
      assert line in lines[j..];
    }
  }

  lemma LineOfTwo(a: seq<string>, b: seq<string>, k: nat)
    requires k < |a + b|
    ensures (a + b)[k] in a || (a + b)[k] in b
  {
  }

  lemma LineOfParts(a: seq<string>, b: seq<string>, c: seq<string>, k: nat)
    requires k < |a + b + c|
    ensures (a + b + c)[k] in a || (a + b + c)[k] in b || (a + b + c)[k] in c
  {
  }

  lemma SpliceHasNoLegacy(manager: Manager, existing: string)
    requires !Has(existing, LEGACY_HOOK_MARKER)
    ensures !SomeLineHas(SplicedLines(existing, BodyLines(manager)), LEGACY_HOOK_MARKER)
  {
    BlockHasNoLegacy(manager);
    NoLegacyIn("");
    var body := BodyLines(manager);
    hide BodyLines, SplicedLines, Has, Block;
    forall k | 0 <= k < |SplicedLines(existing, body)| ensures !Has(SplicedLines(existing, body)[k], LEGACY_HOOK_MARKER) {
      SplicedLineIsKnown(existing, body, k);
      if SplicedLines(existing, body)[k] in Lines(existing) && Has(SplicedLines(existing, body)[k], LEGACY_HOOK_MARKER) {
        LineIsInText(existing, LEGACY_HOOK_MARKER);
      }
    }
  }

  lemma PreambleHasNoLegacy()
    ensures !Has(SHELL_PREAMBLE, LEGACY_HOOK_MARKER)
  {
    if at: nat :| OccursAt(SHELL_PREAMBLE, at, LEGACY_HOOK_MARKER) {
      LegacyUnbroken();
      HasInALine(SHELL_PREAMBLE, LEGACY_HOOK_MARKER, at);
      PreambleLines();
      LinesOfEnded(PREAMBLE_LINES);
    }
  }

  lemma PreambleLines()
    ensures AllUnbroken(PREAMBLE_LINES) && !SomeLineHas(PREAMBLE_LINES, LEGACY_HOOK_MARKER)
  {
    PreambleIsPrintable();
    hide Has, Unbroken;
    forall k | 0 <= k < |PREAMBLE_LINES| ensures !Has(PREAMBLE_LINES[k], LEGACY_HOOK_MARKER) && Unbroken(PREAMBLE_LINES[k]) {
      assert Printable(PREAMBLE_LINES[k]);
      PrintableHasNoLegacy(PREAMBLE_LINES[k]);
    }
  }

  predicate Printable(line: string) {
    forall k :: 0 <= k < |line| ==> ' ' <= line[k] <= '~' && line[k] != '>'
  }

  lemma PrintableHasNoLegacy(line: string)
    requires Printable(line)
    ensures !Has(line, LEGACY_HOOK_MARKER) && Unbroken(line)
  {
    NoLegacyIn(line);
  }

  lemma PreambleCommentIsPrintable()
    ensures Printable("# The repo's pre-commit hook. " + "Farrier owns only the fenced " + "region below; anything")
  {
    assert Printable("# The repo's pre-commit hook. ");
    assert Printable("Farrier owns only the fenced ");
    assert Printable("region below; anything");
  }

  lemma PreambleIsPrintable()
    ensures forall k :: 0 <= k < |PREAMBLE_LINES| ==> Printable(PREAMBLE_LINES[k])
  {
    PreambleCommentIsPrintable();
    assert Printable("#!/bin/sh");
    assert Printable("# outside it is yours and ") && Printable("survives `farrier install`.");
    assert Printable("set -eu");
  }

  /** What is spliced into never holds the older marker. */
  lemma ExistingHasNoLegacy(manager: Manager, file: Option<string>)
    ensures !Has(Existing(manager, file), LEGACY_HOOK_MARKER)
  {
    PreambleHasNoLegacy();
    NoLegacyIn("");
    hide IsSpace, LEGACY_HOOK_MARKER;
  }

  lemma DesiredLines(manager: Manager, file: Option<string>)
    ensures Lines(Desired(manager, file)) == SplicedLines(Existing(manager, file), BodyLines(manager))
    ensures Fenced(Lines(Desired(manager, file)))
  {
    BodiesAreClean(manager);
    hide Existing, BodyLines, Splice, Lines, Fence, CleanBody, SplicedLines;
    SpliceShape(Existing(manager, file), BodyLines(manager));
    SplicedIsFenced(Existing(manager, file), BodyLines(manager));
  }

  lemma SplicedIsFenced(existing: string, body: seq<string>)
    ensures Fenced(SplicedLines(existing, body))
  {
    hide Lines, Index, Prefix, Trim;
    var block := Block(body);
    assert block[0] == FENCE_START && block[|block| - 1] == FENCE_END;
  }

  lemma TopLine(text: string)
    ensures Lines(REPOS + NL + text) == [REPOS] + Lines(text)
  {
    assert Unbroken(REPOS);
    LinesOfEndedLine(REPOS);
    LinesConcat(REPOS + NL, text);
  }

  lemma ReposIsNoMarker()
    ensures REPOS != FENCE_START && REPOS != FENCE_END
  {
    assert |REPOS| == 6 && |FENCE_START| == 36 && |FENCE_END| == 24;
  }

  lemma IndexBelow(top: string, lines: seq<string>, line: string)
    requires line in lines && top != line
    ensures line in [top] + lines && Index([top] + lines, line) == 1 + Index(lines, line)
  {
    IndexIs([top] + lines, line, 1 + Index(lines, line));
  }

  lemma SliceBelow<T>(top: T, lines: seq<T>, i: nat, j: nat)
    requires i <= j <= |lines|
    ensures ([top] + lines)[i + 1..j + 1] == lines[i..j]
  {
  }

  /** A line on top that is no marker moves the fence down one line. */
  lemma TopLineKeepsFence(lines: seq<string>)
    requires Fenced(lines)
    ensures Fenced([REPOS] + lines) && Between([REPOS] + lines) == Between(lines)
    ensures Index([REPOS] + lines, FENCE_START) == 1 + Index(lines, FENCE_START)
  {
    hide Index;
    ReposIsNoMarker();
    TopLineKeepsMarkers(REPOS, lines);
  }

  lemma TopLineKeepsMarkers(top: string, lines: seq<string>)
    requires Fenced(lines) && top != FENCE_START && top != FENCE_END
    ensures Fenced([top] + lines) && Between([top] + lines) == Between(lines)
    ensures Index([top] + lines, FENCE_START) == 1 + Index(lines, FENCE_START)
  {
    hide Index;
    IndexBelow(top, lines, FENCE_START);
    IndexBelow(top, lines, FENCE_END);
    BetweenBelow(top, lines, Index(lines, FENCE_START), Index(lines, FENCE_END));
  }

  lemma BetweenBelow(top: string, lines: seq<string>, start: nat, end: nat)
    requires Fenced(lines) && Index(lines, FENCE_START) == start && Index(lines, FENCE_END) == end
    requires Fenced([top] + lines)
    requires Index([top] + lines, FENCE_START) == start + 1 && Index([top] + lines, FENCE_END) == end + 1
    ensures Between([top] + lines) == Between(lines)
  {
    hide Index, Fenced;
    if start + 1 <= end {
      SliceBelow(top, lines, start + 1, end);
    }
  }

  lemma InstallTextShape(manager: Manager, file: Option<string>)
    ensures var desired, text := Desired(manager, file), InstallText(manager, file);
      && (text == desired || text == REPOS + NL + desired)
      && FencedBody(text) == FencedBody(desired)
      && (Canonical(text) <==> Canonical(desired))
  {
    DesiredLines(manager, file);
    var desired, text := Desired(manager, file), InstallText(manager, file);
    hide Desired, Existing, BodyFor, Lines, SplicedLines, FencedBody, Canonical, Fenced;
    if text != desired {
      TopLineChangesNothing(desired);
    }
  }

  lemma TopLineChangesNothing(desired: string)
    requires Fenced(Lines(desired))
    ensures FencedBody(REPOS + NL + desired) == FencedBody(desired)
    ensures Canonical(REPOS + NL + desired) <==> Canonical(desired)
  {
    hide *;
    TopLine(desired);
    TopLineKeepsBody(desired);
    TopLineKeepsForm(desired);
  }

  lemma TopLineKeepsBody(desired: string)
    requires Fenced(Lines(desired)) && Lines(REPOS + NL + desired) == [REPOS] + Lines(desired)
    ensures FencedBody(REPOS + NL + desired) == FencedBody(desired)
  {
    hide Lines, Between, Index, Fenced, Join;
    TopLineKeepsFence(Lines(desired));
  }

  lemma TopLineKeepsForm(desired: string)
    requires Fenced(Lines(desired)) && Lines(REPOS + NL + desired) == [REPOS] + Lines(desired)
    ensures Canonical(REPOS + NL + desired) <==> Canonical(desired)
  {
    FencedIsSome(Lines(desired));
    FormBelow(REPOS, desired, Lines(desired));
    hide Lines, Fenced, Ended, LastNonEmpty;
  }

  lemma FormBelow(top: string, text: string, lines: seq<string>)
    requires lines != []
    ensures LastNonEmpty([top] + lines) <==> LastNonEmpty(lines)
    ensures top + NL + text == Ended([top] + lines) <==> text == Ended(lines)
  {
    EndedConcat([top], lines);
    EndedOne(top);
    hide Ended;
    SameHead(top + NL, text, Ended(lines));
  }

  lemma EndedOne(line: string)
    ensures Ended([line]) == line + NL
  {
  }

  lemma FencedIsSome(lines: seq<string>)
    requires Fenced(lines)
    ensures lines != []
  {
  }

  lemma SameHead<T>(head: seq<T>, a: seq<T>, b: seq<T>)
    ensures head + a == head + b <==> a == b
  {
    if head + a == head + b {
      assert a == (head + a)[|head|..] == b;
    }
  }

  /** After an install the fence is in place, exactly when the text it went into was well fenced. */
  lemma InstallClearsDriftExactlyWhen(manager: Manager, file: Option<string>)
    ensures !Drifted(manager, Some(InstallText(manager, file))) <==> WellFenced(Lines(Existing(manager, file)))
  {
    BodiesAreClean(manager);
    InstallTextShape(manager, file);
    hide Existing, InstallText, FencedBody, Lines, WellFenced, Splice, Fence, BodyLines;
    SpliceReadsBackExactlyWhen(Existing(manager, file), BodyLines(manager));
  }

  lemma InstalledLines(manager: Manager, file: Option<string>)
    ensures var spliced, lines := SplicedLines(Existing(manager, file), BodyLines(manager)), Lines(InstallText(manager, file));
      lines == spliced || (manager.PreCommit? && lines == [REPOS] + spliced)
  {
    DesiredLines(manager, file);
    hide Desired, Existing, BodyLines, SplicedLines, Lines;
    TopLine(Desired(manager, file));
  }

  lemma InstalledHasNoLegacy(manager: Manager, file: Option<string>)
    ensures !Has(InstallText(manager, file), LEGACY_HOOK_MARKER)
  {
    ExistingHasNoLegacy(manager, file);
    InstalledLines(manager, file);
    NoLegacyIn(REPOS);
    LegacyUnbroken();
    var text := InstallText(manager, file);
    hide InstallText, Existing, SplicedLines, Lines, LEGACY_HOOK_MARKER, BodyLines;
    SpliceHasNoLegacy(manager, Existing(manager, file));
    if Has(text, LEGACY_HOOK_MARKER) {
      var at: nat :| OccursAt(text, at, LEGACY_HOOK_MARKER);
      HasInALine(text, LEGACY_HOOK_MARKER, at);
      var k :| 0 <= k < |Lines(text)| && Has(Lines(text)[k], LEGACY_HOOK_MARKER);
      InstalledLineHasNoLegacy(manager, file, k);
    }
  }

  lemma InstalledLineHasNoLegacy(manager: Manager, file: Option<string>, k: nat)
    requires k < |Lines(InstallText(manager, file))|
    requires !SomeLineHas(SplicedLines(Existing(manager, file), BodyLines(manager)), LEGACY_HOOK_MARKER)
    ensures !Has(Lines(InstallText(manager, file))[k], LEGACY_HOOK_MARKER)
  {
    InstalledLines(manager, file);
    NoLegacyIn(REPOS);
    NoneHas(
      Lines(InstallText(manager, file)), SplicedLines(Existing(manager, file), BodyLines(manager)), REPOS,
      LEGACY_HOOK_MARKER, k);
  }

  lemma NoneHas(lines: seq<string>, below: seq<string>, top: string, needle: string, k: nat)
    requires lines == below || lines == [top] + below
    requires !SomeLineHas(below, needle) && !Has(top, needle) && k < |lines|
    ensures !Has(lines[k], needle)
  {
    hide Has;
    if lines != below && k > 0 {
      assert lines[k] == below[k - 1];
    }
  }

  lemma InstalledIsFenced(manager: Manager, file: Option<string>)
    ensures Fenced(Lines(InstallText(manager, file)))
  {
    InstalledLines(manager, file);
    DesiredLines(manager, file);
    hide InstallText, Existing, SplicedLines, Lines, BodyLines;
  }

  lemma FencedIsNotBlank(text: string)
    requires Fenced(Lines(text))
    ensures !Blank(text)
  {
    StartHasHash();
    hide Lines, IsSpace, OccursAt;
    LineIsInText(text, "#");
    HashIsNoSpace();
    var at: nat :| OccursAt(text, at, "#");
    OccursMeans(text, at);
  }

  lemma StartHasHash()
    ensures Has(FENCE_START, "#")
  {
    assert FENCE_START[0] == '#' && FENCE_START[0..1] == "#";
    assert OccursAt(FENCE_START, 0, "#");
  }

  lemma OccursMeans(text: string, at: nat)
    requires OccursAt(text, at, "#")
    ensures at < |text| && text[at] == '#'
  {
    assert text[at..at + 1][0] == text[at];
  }

  lemma HashIsNoSpace()
    ensures !IsSpace('#')
  {
  }

  lemma FindNone(text: string, needle: string)
    requires !Has(text, needle)
    ensures Find(text, needle, 0) == -1
  {
  }

  /** The second run splices into what the first one left. */
  lemma ExistingOfInstalled(manager: Manager, file: Option<string>)
    ensures Existing(manager, Some(InstallText(manager, file))) == InstallText(manager, file)
  {
    InstalledHasNoLegacy(manager, file);
    InstalledIsFenced(manager, file);
    var text := InstallText(manager, file);
    hide InstallText, Lines, Has, LEGACY_HOOK_MARKER;
    FindNone(text, LEGACY_HOOK_MARKER);
    FencedIsNotBlank(text);
  }

  lemma ReposAtTop(manager: Manager, file: Option<string>)
    requires manager.PreCommit?
    ensures HasRepos(Lines(InstallText(manager, file)))
  {
    var desired := Desired(manager, file);
    hide Desired, Lines;
    TopLine(desired);
    ReposOnTop([REPOS] + Lines(desired));
  }

  lemma ReposOnTop(lines: seq<string>)
    requires lines != [] && lines[0] == REPOS
    ensures HasRepos(lines)
  {
    assert StartsWith(lines[0], REPOS);
  }

  lemma FirstLineStays(text: string, body: seq<string>)
    requires Fenced(Lines(text)) && Index(Lines(text), FENCE_START) > 0
    ensures SplicedLines(text, body) != [] && SplicedLines(text, body)[0] == Lines(text)[0]
  {
    hide Lines, Block, Trim;
  }

  /** A `repos:` line on top of a fenced text is not lost by the next splice. */
  lemma TopLineSurvives(rest: string, body: seq<string>)
    requires CleanBody(body) && Fenced(Lines(rest))
    ensures HasRepos(Lines(Splice(REPOS + NL + rest, Fence(Join(body, NL)))))
  {
    var text := REPOS + NL + rest;
    TopLine(rest);
    TopLineKeepsFence(Lines(rest));
    hide Splice, Lines, Fence, Index, Block, Trim, SplicedLines, Fenced, CleanBody, Join, HasRepos;
    SpliceShape(text, body);
    FirstLineStays(text, body);
    ReposOnTop(SplicedLines(text, body));
  }

  lemma SecondRunIsASplice(manager: Manager, file: Option<string>)
    ensures var text := InstallText(manager, file);
      (InstallText(manager, Some(text)) == text) <==> (Splice(text, Fence(BodyFor(manager))) == text)
  {
    var text := InstallText(manager, file);
    ExistingOfInstalled(manager, file);
    var again := Desired(manager, Some(text));
    assert again == Splice(text, Fence(BodyFor(manager)));
    if manager.PreCommit? {
      ReposAtTop(manager, file);
      DesiredLines(manager, Some(text));
      BodiesAreClean(manager);
      SecondRunOnTop(manager, text, again);
    }
  }

  lemma SecondRunOnTop(manager: Manager, text: string, again: string)
    requires manager.PreCommit? && again == Desired(manager, Some(text)) && again == Splice(text, Fence(BodyFor(manager)))
    requires HasRepos(Lines(text)) && Fenced(Lines(again)) && CleanBody(BodyLines(manager))
    ensures InstallText(manager, Some(text)) == text <==> again == text
  {
    hide Desired, Lines, Splice, Fence, HasRepos, Fenced, BodyLines;
    if InstallText(manager, Some(text)) == text && again != text {
      TopLineSurvives(again, BodyLines(manager));
    }
  }

  /** A second install rewrites nothing, exactly when the first one's text was well fenced and either fenced or with only newlines. */
  lemma SecondRunRewritesNothingExactlyWhen(manager: Manager, file: Option<string>)
    ensures InstallText(manager, Some(InstallText(manager, file))) == InstallText(manager, file)
       <==> Settles(Existing(manager, file))
  {
    BodiesAreClean(manager);
    InstallTextShape(manager, file);
    SecondRunIsASplice(manager, file);
    hide Existing, InstallText, FencedBody, Lines, WellFenced, Splice, Fence, BodyLines, Canonical, NewlinesOnly, Fenced;
    SpliceReadsBackExactlyWhen(Existing(manager, file), BodyLines(manager));
    SplicedIsCanonicalExactlyWhen(Existing(manager, file), BodyLines(manager));
    SpliceFixesExactlyWhen(InstallText(manager, file), BodyLines(manager));
  }

  /** In a text with a start and no end, the second install drops every line after that start. */
  lemma LoneStartSwallows(existing: string, body: seq<string>)
    requires CleanBody(body) && FENCE_START in Lines(existing) && FENCE_END !in Lines(existing)
    ensures var block := Fence(Join(body, NL));
      Lines(Splice(Splice(existing, block), block)) == Lines(existing)[..Index(Lines(existing), FENCE_START)] + Block(body)
  {
    var once := Splice(existing, Fence(Join(body, NL)));
    PrefixLines(existing);
    NotEmpty();
    SpliceShape(existing, body);
    SpliceShape(once, body);
    assert Lines(once) == Lines(Prefix(existing)) + Block(body);
    hide Splice, Lines, Fence, Join, Prefix, CleanBody, Block, SplicedLines;
    SplicedAfterLoneStart(once, Lines(existing), Lines(Prefix(existing)), body);
  }

  /** A user's line after a start with no end: two installs of any body that does not hold it, and it is gone. */
  lemma TwoInstallsCanDropALine(body: seq<string>)
    requires CleanBody(body) && "mine" !in body
    ensures var existing, block := Ended([FENCE_START, "mine"]), Fence(Join(body, NL));
      "mine" in Lines(existing) && "mine" !in Lines(Splice(Splice(existing, block), block))
  {
    var lines := [FENCE_START, "mine"];
    MarkersUnbroken();
    assert Unbroken("mine");
    MineIsNoMarker();
    LinesOfEnded(lines);
    assert lines[1] == "mine" && lines[0] == FENCE_START;
    IndexIs(lines, FENCE_START, 0);
    hide Splice, Fence, Join, Ended, Unbroken, CleanBody, Lines;
    LoneStartSwallows(Ended(lines), body);
    assert lines[..0] + Block(body) == Block(body);
  }

  lemma MineIsNoMarker()
    ensures "mine" != FENCE_START && "mine" != FENCE_END
  {
    assert |"mine"| == 4 && |FENCE_START| == 36 && |FENCE_END| == 24;
  }

  lemma SplicedAfterLoneStart(once: string, lines: seq<string>, head: seq<string>, body: seq<string>)
    requires CleanBody(body) && FENCE_START in lines && FENCE_END !in head && lines <= head && Lines(once) == head + Block(body)
    ensures SplicedLines(once, body) == lines[..Index(lines, FENCE_START)] + Block(body)
  {
    var start := Index(lines, FENCE_START);
    assert head[..start] == lines[..start] && head[start] == lines[start];
    SwallowedLines(head, start, body);
    assert Trim([]) == [];
    var after := head[..start] + Block(body);
    assert after + [] == after;
  }

  lemma SwallowedLines(head: seq<string>, start: nat, body: seq<string>)
    requires CleanBody(body) && FENCE_END !in head && start < |head| && head[start] == FENCE_START && FENCE_START !in head[..start]
    ensures var lines := head + Block(body);
      && Fenced(lines) && Index(lines, FENCE_START) == start
      && lines[..start] == head[..start] && lines[Index(lines, FENCE_END) + 1..] == []
  {
    MarkersUnbroken();
    hide Unbroken;
    var lines := head + Block(body);
    var end := |head| + |body| + 1;
    forall k | 0 <= k < start ensures lines[k] != FENCE_START {
      assert lines[k] == head[..start][k];
    }
    IndexIs(lines, FENCE_START, start);
    forall k | 0 <= k < end ensures lines[k] != FENCE_END {
      if |head| < k {
        assert lines[k] == body[k - |head| - 1];
      }
    }
    assert lines[end] == FENCE_END;
    IndexIs(lines, FENCE_END, end);
  }

  // ---- the repository's hook files ----

  /** Paths and texts as `read_text` gives them, which turns every `\r\n` and `\r` into a newline. */
  type Files = map<string, string>

  const MANAGERS := [PreCommit, Lefthook, Husky, Githooks]

  datatype Message = Removed(file: string) | Wired(file: string)

  function Lookup(files: Files, path: string): Option<string> {
    if path in files then Some(files[path]) else None
  }

  /** The manager `none` takes the fence out of every file that could hold one. */
  function WithoutFences(files: Files, managers: seq<Manager>): Files {
    if managers == [] then files
    else
      var rest := WithoutFences(files, managers[..|managers| - 1]);
      var path := FenceFile(managers[|managers| - 1]);
      if path in rest then rest[path := Unsplice(rest[path])] else rest
  }

  function RemovedFrom(files: Files, managers: seq<Manager>): seq<Message> {
    if managers == [] then []
    else
      var path := FenceFile(managers[|managers| - 1]);
      RemovedFrom(files, managers[..|managers| - 1])
      + if path in files && Unsplice(files[path]) != files[path] then [Removed(path)] else []
  }

  lemma FenceFilesDiffer(a: Manager, b: Manager)
    requires a != b
    ensures FenceFile(a) != FenceFile(b)
  {
    assert |FenceFile(PreCommit)| == 23 && |FenceFile(Lefthook)| == 12 && |FenceFile(Husky)| == 17 && |FenceFile(Githooks)| == 20;
  }

  predicate HoldsFence(managers: seq<Manager>, path: string) {
    exists m :: m in managers && FenceFile(m) == path
  }

  /** Each file is changed once, by its own manager. */
  lemma {:induction false} WithoutFencesAt(files: Files, managers: seq<Manager>, path: string)
    requires forall i, j :: 0 <= i < j < |managers| ==> managers[i] != managers[j]
    ensures path in WithoutFences(files, managers) <==> path in files
    ensures path in files ==>
      WithoutFences(files, managers)[path] == if HoldsFence(managers, path) then Unsplice(files[path]) else files[path]
  {
    if managers != [] {
      var init, last := managers[..|managers| - 1], managers[|managers| - 1];
      WithoutFencesAt(files, init, path);
      hide Unsplice, FenceFile;
      assert managers == init + [last];
      if FenceFile(last) == path {
        forall m | m in init ensures FenceFile(m) != path {
          FenceFilesDiffer(m, last);
        }
      }
    }
  }

  /** `fence_drift`: with no manager, the files still fenced; else the manager's file, if it drifted. */
  function FenceDrift(files: Files, manager: Option<Manager>): seq<string> {
    match manager
    case None => StillFenced(files, MANAGERS)
    case Some(m) => if Drifted(m, Lookup(files, FenceFile(m))) then [FenceFile(m)] else []
  }

  function StillFenced(files: Files, managers: seq<Manager>): seq<string> {
    if managers == [] then []
    else
      var path := FenceFile(managers[0]);
      (if path in files && FencedBody(files[path]).Some? then [path] else []) + StillFenced(files, managers[1..])
  }

  function Installed(files: Files, manager: Option<Manager>): Files {
    match manager
    case None => WithoutFences(files, MANAGERS)
    case Some(m) => files[FenceFile(m) := InstallText(m, Lookup(files, FenceFile(m)))]
  }

  lemma {:induction false} NoneStillFenced(files: Files, managers: seq<Manager>)
    ensures StillFenced(files, managers) == []
       <==> forall m :: m in managers && FenceFile(m) in files ==> !Fenced(Lines(files[FenceFile(m)]))
  {
    hide Lines, FenceFile, Fenced;
    if managers != [] {
      NoneStillFenced(files, managers[1..]);
    }
  }

  lemma EveryManagerListed()
    ensures forall m: Manager :: m in MANAGERS
    ensures forall i, j :: 0 <= i < j < |MANAGERS| ==> MANAGERS[i] != MANAGERS[j]
  {
    assert MANAGERS[0] == PreCommit && MANAGERS[1] == Lefthook && MANAGERS[2] == Husky && MANAGERS[3] == Githooks;
    forall m: Manager ensures m in MANAGERS {
      match m {
        case PreCommit =>
        case Lefthook =>
        case Husky =>
        case Githooks =>
      }
    }
  }

  /** Removing the fences leaves none, exactly when no file had both markers again outside its fence. */
  lemma RemovalClearsDriftExactlyWhen(files: Files)
    ensures FenceDrift(Installed(files, None), None) == []
       <==> forall m :: FenceFile(m) in files && Fenced(Lines(files[FenceFile(m)])) ==>
              !Fenced(Outside(Lines(files[FenceFile(m)])))
  {
    var after := Installed(files, None);
    NoneStillFenced(after, MANAGERS);
    EveryManagerListed();
    hide Lines, FenceFile, Fenced, Unsplice, Outside, MANAGERS, FencedBody, WithoutFences, StillFenced;
    forall m: Manager | FenceFile(m) in files
      ensures FenceFile(m) in after
      ensures Fenced(Lines(after[FenceFile(m)])) <==>
        Fenced(Lines(files[FenceFile(m)])) && Fenced(Outside(Lines(files[FenceFile(m)])))
    {
      WithoutFencesAt(files, MANAGERS, FenceFile(m));
      assert HoldsFence(MANAGERS, FenceFile(m));
      UnspliceOnce(files[FenceFile(m)]);
    }
    forall m: Manager | FenceFile(m) in after ensures FenceFile(m) in files {
      WithoutFencesAt(files, MANAGERS, FenceFile(m));
    }
  }

  lemma UnspliceOnce(text: string)
    ensures Fenced(Lines(Unsplice(text))) <==> Fenced(Lines(text)) && Fenced(Outside(Lines(text)))
  {
    if Fenced(Lines(text)) {
      UnspliceKeepsTheRest(text);
    }
  }

  class HookRepo {
    var files: Files

    constructor (found: Files)
      ensures files == found
    {
      files := found;
    }

    /** `install_manager` for `none`: take the fence out of every file that holds one. */
    method RemoveFences(managers: seq<Manager>, dryRun: bool) returns (messages: seq<Message>)
      requires forall i, j :: 0 <= i < j < |managers| ==> managers[i] != managers[j]
      modifies this
      ensures files == if dryRun then old(files) else WithoutFences(old(files), managers)
      ensures messages == RemovedFrom(old(files), managers)
    {
      messages := [];
      for i := 0 to |managers|
        invariant files == if dryRun then old(files) else WithoutFences(old(files), managers[..i])
        invariant messages == RemovedFrom(old(files), managers[..i])
      {
        NextManager(old(files), managers, i);
        NotYetChanged(old(files), managers, i);
        hide WithoutFences, RemovedFrom, Unsplice, FenceFile;
        var path := FenceFile(managers[i]);
        if path in files {
          var stripped := Unsplice(files[path]);
          if stripped != files[path] {
            if !dryRun {
              files := files[path := stripped];
            }
            messages := messages + [Removed(path)];
          } else {
            assert files[path := stripped] == files;
          }
        }
      }
      assert managers[..|managers|] == managers;
    }

    /** `install_manager`: splice farrier's fence into the manager's file, or take every fence out. */
    method InstallManager(manager: Option<Manager>, dryRun: bool) returns (messages: seq<Message>)
      modifies this
      ensures files == if dryRun then old(files) else Installed(old(files), manager)
      ensures manager.None? ==> messages == RemovedFrom(old(files), MANAGERS)
      ensures manager.Some? ==>
        messages == if Installed(old(files), manager) == old(files) then [] else [Wired(FenceFile(manager.value))]
    {
      hide InstallText, FenceFile, WithoutFences, RemovedFrom, MANAGERS;
      messages := [];
      if manager.None? {
        EveryManagerListed();
        messages := RemoveFences(MANAGERS, dryRun);
      } else {
        var path := FenceFile(manager.value);
        var desired := InstallText(manager.value, Lookup(files, path));
        ghost var after := files[path := desired];
        assert after[path] == desired;
        if Lookup(files, path) != Some(desired) {
          if !dryRun {
            files := files[path := desired];
          }
          messages := [Wired(path)];
        } else {
          assert after == files;
        }
      }
    }
  }

  lemma NextManager(files: Files, managers: seq<Manager>, i: nat)
    requires i < |managers|
    ensures var path, now := FenceFile(managers[i]), WithoutFences(files, managers[..i]);
      && WithoutFences(files, managers[..i + 1]) == (if path in now then now[path := Unsplice(now[path])] else now)
      && RemovedFrom(files, managers[..i + 1])
      == RemovedFrom(files, managers[..i])
       + (if path in files && Unsplice(files[path]) != files[path] then [Removed(path)] else [])
  {
    hide Unsplice, FenceFile;
    assert managers[..i + 1][..i] == managers[..i];
  }

  /** When a manager's turn comes, its file is as it was found. */
  lemma NotYetChanged(files: Files, managers: seq<Manager>, i: nat)
    requires i < |managers| && forall a, b :: 0 <= a < b < |managers| ==> managers[a] != managers[b]
    ensures var path, now := FenceFile(managers[i]), WithoutFences(files, managers[..i]);
      (path in now <==> path in files) && (path in files ==> now[path] == files[path])
  {
    var path := FenceFile(managers[i]);
    hide Unsplice, FenceFile, WithoutFences;
    WithoutFencesAt(files, managers[..i], path);
    forall m | m in managers[..i] ensures FenceFile(m) != path {
      FenceFilesDiffer(m, managers[i]);
    }
  }

  /** After an install the manager's file does not drift, exactly when its text was well fenced; then, if it settles, a second install rewrites nothing. */
  lemma InstallSettlesExactlyWhen(files: Files, manager: Manager)
    ensures var existing := Existing(manager, Lookup(files, FenceFile(manager)));
      var after := Installed(files, Some(manager));
      && (FenceDrift(after, Some(manager)) == [] <==> WellFenced(Lines(existing)))
      && (Installed(after, Some(manager)) == after <==> Settles(existing))
  {
    var file := Lookup(files, FenceFile(manager));
    InstallClearsDriftExactlyWhen(manager, file);
    SecondRunRewritesNothingExactlyWhen(manager, file);
    hide InstallText, Drifted, Existing, Settles, WellFenced, FenceFile;
    var text := InstallText(manager, file);
    var after := Installed(files, Some(manager));
    assert after[FenceFile(manager)] == text;
    if InstallText(manager, Some(text)) == text {
      assert Installed(after, Some(manager)) == after;
    }
  }
}
