/** farrier/farrier/hook_managers.py: what an install leaves of the user's hook file, in terms of the file as it was. */
module FencesInstall {
  import opened Wrappers
  import opened Collections
  import opened Text
  import opened Fences

  /** The file is of the older layout: the older marker stands somewhere in it. */
  ghost predicate OfOlderLayout(text: string) {
    exists i: nat :: OccursAt(text, i, "# >>> farrier: " + "staged-files gate (generated) >>>")
  }

  /** A hook that the shell runs, rather than a manager's config. */
  predicate IsShell(manager: Manager) {
    manager == Husky || manager == Githooks
  }

  predicate AllSpace(text: string) {
    forall c :: c in text ==> IsSpace(c)
  }

  /** Line `i` is the first of its kind. */
  predicate FirstAt(lines: seq<string>, line: string, i: nat) {
    i < |lines| && lines[i] == line && line !in lines[..i]
  }

  /**
   * What of the file's lines stands before and after the block: all before it where there was no fence, but for the empty
   * line a text that ends in another line break than a newline gets; and else those before the fence and, without the
   * empty ones at the end, those after it.
   */
  ghost predicate KeepsAround(text: string, before: seq<string>, after: seq<string>) {
    var lines := Lines(text);
    if FENCE_START in lines && FENCE_END in lines then
      exists start: nat, end: nat ::
        && FirstAt(lines, FENCE_START, start) && FirstAt(lines, FENCE_END, end)
        && before == lines[..start] && AreButTheLast(lines[end + 1..], after)
    else
      && after == []
      && (before == lines
          || (before == lines + [""] && text != "" && IsBreak(text[|text| - 1]) && text[|text| - 1] != '\n'))
  }

  /** The same lines without the empty ones at the end. */
  predicate AreButTheLast(lines: seq<string>, kept: seq<string>) {
    && kept <= lines && (forall i :: |kept| <= i < |lines| ==> lines[i] == "")
    && (kept != [] ==> kept[|kept| - 1] != "")
  }

  lemma {:induction false} TrimIs(lines: seq<string>)
    ensures AreButTheLast(lines, Trim(lines))
  {
    if lines != [] && lines[|lines| - 1] == "" {
      TrimIs(lines[..|lines| - 1]);
    }
  }

  lemma IndexIsFirst(lines: seq<string>, line: string)
    requires line in lines
    ensures FirstAt(lines, line, Index(lines, line))
  {
    var i := Index(lines, line);
    assert forall k :: 0 <= k < i ==> lines[..i][k] == lines[k];
  }

  /** A newline at the end of a line that has none ends that line and makes no other. */
  lemma {:induction false} NewlineEndsTheLine(text: string)
    requires text != "" && !IsBreak(text[|text| - 1])
    ensures Lines(text + NL) == Lines(text)
    decreases |text|
  {
    var i := FirstBreak(text);
    assert IsBreak('\n');
    if i == |text| {
      LinesOfEndedLine(text);
      LinesOfLine(text);
    } else {
      var j := AfterBreak(text, i);
      assert j < |text| by {
        if j == |text| {
          BreakIsLast(text, i);
        }
      }
      CutBeforeNewline(text);
      hide Lines, IsBreak;
      assert text[j..][|text[j..]| - 1] == text[|text| - 1];
      NewlineEndsTheLine(text[j..]);
    }
  }

  lemma BreakIsLast(text: string, i: nat)
    requires i < |text| && IsBreak(text[i]) && AfterBreak(text, i) == |text|
    ensures IsBreak(text[|text| - 1])
  {
  }

  lemma PrefixAddsALine(text: string)
    ensures KeepsAround(text, Lines(Prefix(text)), []) || (FENCE_START in Lines(text) && FENCE_END in Lines(text))
  {
    hide Lines;
    if text != "" && !EndsWithNewline(text) {
      if IsBreak(text[|text| - 1]) {
        NewlineAfter(text);
      } else {
        NewlineEndsTheLine(text);
      }
    }
  }

  /** The lines are the text's own with the block between them. */
  ghost predicate IsAround(text: string, block: seq<string>, lines: seq<string>, before: seq<string>, after: seq<string>) {
    KeepsAround(text, before, after) && lines == before + block + after
  }

  ghost predicate Surrounds(text: string, block: seq<string>, lines: seq<string>) {
    exists before, after :: IsAround(text, block, lines, before, after)
  }

  lemma SurroundsAsIs(text: string, block: seq<string>, lines: seq<string>, before: seq<string>, after: seq<string>)
    requires KeepsAround(text, before, after) && lines == before + block + after
    ensures Surrounds(text, block, lines)
  {
    assert IsAround(text, block, lines, before, after);
  }

  /** Splicing keeps what stands around the fence, and puts the block there. */
  lemma SpliceKeepsAround(text: string, body: seq<string>)
    requires CleanBody(body)
    ensures Surrounds(text, Block(body), Lines(Splice(text, Fence(Join(body, NL)))))
  {
    SpliceShape(text, body);
    hide Splice, Fence, Lines, CleanBody, Join, KeepsAround, Index, Trim, Prefix, Surrounds, Block;
    var installed := Lines(Splice(text, Fence(Join(body, NL))));
    var lines := Lines(text);
    if Fenced(lines) {
      KeepsAroundTheFence(text);
      SurroundsAsIs(text, Block(body), installed, lines[..Index(lines, FENCE_START)], Trim(lines[Index(lines, FENCE_END) + 1..]));
    } else {
      PrefixAddsALine(text);
      assert Lines(Prefix(text)) + Block(body) + [] == Lines(Prefix(text)) + Block(body);
      SurroundsAsIs(text, Block(body), installed, Lines(Prefix(text)), []);
    }
  }

  lemma KeepsAroundTheFence(text: string)
    requires Fenced(Lines(text))
    ensures var lines := Lines(text);
      KeepsAround(text, lines[..Index(lines, FENCE_START)], Trim(lines[Index(lines, FENCE_END) + 1..]))
  {
    hide Lines, Trim, Index;
    var lines := Lines(text);
    IndexIsFirst(lines, FENCE_START);
    IndexIsFirst(lines, FENCE_END);
    TrimIs(lines[Index(lines, FENCE_END) + 1..]);
  }

  lemma OlderExactlyWhen(text: string)
    ensures Find(text, LEGACY_HOOK_MARKER, 0) >= 0 <==> OfOlderLayout(text)
  {
  }

  lemma BlankExactlyWhen(text: string)
    ensures Blank(text) <==> AllSpace(text)
  {
  }

  /** The lines of the block for a manager, markers included. */
  function BlockFor(manager: Manager): seq<string> {
    [FENCE_START] + BodyLines(manager) + [FENCE_END]
  }

  predicate StartsRepos(lines: seq<string>) {
    exists line :: line in lines && StartsWith(line, "repos:")
  }

  /** A pre-commit config that has no `repos:` line gets one on top. */
  function OnTop(manager: Manager, lines: seq<string>): seq<string> {
    if manager == PreCommit && !StartsRepos(lines) then ["repos:"] + lines else lines
  }

  lemma InstallsOnTop(manager: Manager, file: Option<string>)
    ensures Lines(InstallText(manager, file)) == OnTop(manager, Lines(Desired(manager, file)))
  {
    var lines := Lines(Desired(manager, file));
    assert HasRepos(lines) <==> StartsRepos(lines) by {
      hide Lines, Desired;
      if HasRepos(lines) {
        var k :| 0 <= k < |lines| && StartsWith(lines[k], REPOS);
        assert lines[k] in lines;
      }
    }
    hide Desired;
    TopLine(Desired(manager, file));
  }

  /**
   * An install of a manager keeps the lines of the user's file around the fence, in their order, whatever the file holds:
   * unless the file is of the older layout, or a shell hook with nothing in it.
   */
  lemma InstallKeepsTheLines(manager: Manager, text: string)
    requires !OfOlderLayout(text) && !(IsShell(manager) && AllSpace(text))
    ensures exists lines :: Surrounds(text, BlockFor(manager), lines) && Lines(InstallText(manager, Some(text))) == OnTop(manager, lines)
  {
    OlderExactlyWhen(text);
    BlankExactlyWhen(text);
    assert Existing(manager, Some(text)) == text;
    BodiesAreClean(manager);
    InstallsOnTop(manager, Some(text));
    hide InstallText, Lines, CleanBody, OnTop, Plain, BodyLines, Surrounds;
    SpliceKeepsAround(text, BodyLines(manager));
    assert Block(BodyLines(manager)) == BlockFor(manager);
    assert Surrounds(text, BlockFor(manager), Lines(Desired(manager, Some(text))));
  }

  /** A file of the older layout is replaced by what a repository with no such file gets. */
  lemma OlderLayoutStartsAfresh(manager: Manager, text: string)
    requires OfOlderLayout(text)
    ensures InstallText(manager, Some(text)) == InstallText(manager, None)
  {
    OlderExactlyWhen(text);
    NothingIsNotOlder();
    hide OfOlderLayout, Splice, Fence, Blank;
  }

  lemma NothingIsNotOlder()
    ensures Find("", LEGACY_HOOK_MARKER, 0) < 0
  {
    MarkerFacts();
  }

  /** A missing file gets the block, and a shell hook that is missing or blank gets its first lines before it. */
  lemma AFreshFileGetsTheBlock(manager: Manager, file: Option<string>)
    requires file.Some? ==> IsShell(manager) && AllSpace(file.value) && !OfOlderLayout(file.value)
    ensures Lines(InstallText(manager, file)) ==
      OnTop(manager, (if IsShell(manager) then PREAMBLE_LINES else []) + BlockFor(manager))
  {
    NothingIsNotOlder();
    if file.Some? {
      OlderExactlyWhen(file.value);
      BlankExactlyWhen(file.value);
    }
    var existing := if IsShell(manager) then SHELL_PREAMBLE else "";
    var first := if IsShell(manager) then PREAMBLE_LINES else [];
    assert Existing(manager, file) == existing;
    FreshLines(manager);
    BodiesAreClean(manager);
    InstallsOnTop(manager, file);
    SpliceShape(existing, BodyLines(manager));
    assert Lines(Desired(manager, file)) == first + BlockFor(manager) by {
      hide Lines, CleanBody, Plain, BodyLines, Fence, Splice, BodyFor;
    }
  }

  /** The lines a fresh file has before the block: no marker among them, and each ended. */
  lemma FreshLines(manager: Manager)
    ensures var existing := if IsShell(manager) then SHELL_PREAMBLE else "";
      var first := if IsShell(manager) then PREAMBLE_LINES else [];
      && Lines(existing) == first && Prefix(existing) == existing && FENCE_START !in first && FENCE_END !in first
  {
    if IsShell(manager) {
      PreambleIsNoMarker();
      PreambleLines();
      LinesOfEnded(PREAMBLE_LINES);
      EndedEndsWithNewline(PREAMBLE_LINES);
    }
  }

  lemma PreambleIsNoMarker()
    ensures FENCE_START !in PREAMBLE_LINES && FENCE_END !in PREAMBLE_LINES
  {
    MarkerFacts();
    assert FENCE_START[2] == '>' && FENCE_END[2] == '<';
    assert PREAMBLE_LINES[0][2] == '/' && PREAMBLE_LINES[1][2] == 'T' && PREAMBLE_LINES[2][2] == 'o' && PREAMBLE_LINES[3][2] == 't';
  }
}
