/** farrier/farrier/home_entries.py, `plain_json`: JSONC text as JSON, refining a description over tokens. */
module PlainJson {
  import opened Collections
  import opened Wrappers
  import opened Text

  /** A string literal with its quotes, a comment, or any other single character. */
  datatype Token = Str(text: string) | Comment(text: string) | Ch(c: char)

  /** The two ways the scan runs off the text: Python's IndexError and ValueError. */
  datatype ScanError = OpenString | OpenComment

  type Scan<T> = Result<T, ScanError>

  predicate IsCloser(c: char) {
    c == '}' || c == ']'
  }

  // ---- tokens ----

  /** Where the string literal whose body is scanned from `end` closes. */
  function StringEnd(text: string, end: nat): Option<nat>
    decreases |text| - end
  {
    if end >= |text| then None
    else if text[end] == '"' then Some(end)
    else StringEnd(text, if text[end] == '\\' then end + 2 else end + 1)
  }

  lemma {:induction false} StringEndIsInside(text: string, end: nat)
    ensures var close := StringEnd(text, end); close.Some? ==> end <= close.value < |text| && text[close.value] == '"'
    decreases |text| - end
  {
    if end < |text| && text[end] != '"' {
      StringEndIsInside(text, if text[end] == '\\' then end + 2 else end + 1);
    }
  }

  lemma LineCommentEnds(text: string, index: nat)
    requires OccursAt(text, index, "//")
    ensures var newline := Find(text, "\n", index); newline < 0 || index < newline <= |text|
  {
    var newline := Find(text, "\n", index);
    assert text[index..index + 2][0] == text[index];
    if newline >= 0 {
      assert text[newline..newline + 1][0] == text[newline];
    }
  }

  lemma CloseIsInside(text: string, index: nat)
    ensures var close := Find(text, "*/", index); close < 0 || index <= close <= |text| - 2
  {
  }

  /** The next token at `index` and where it ends. */
  function NextToken(text: string, index: nat): (scan: Scan<(Token, nat)>)
    requires index < |text|
    ensures scan.Ok? ==> index < scan.value.1 <= |text| && TextOf(scan.value.0) == text[index..scan.value.1]
    ensures scan.Ok? && scan.value.0.Str? ==> text[scan.value.1 - 1] == '"'
  {
    if text[index] == '"' then
      StringEndIsInside(text, index + 1);
      var close := StringEnd(text, index + 1);
      if close.None? then Err(OpenString) else Ok((Str(text[index..close.value + 1]), close.value + 1))
    else if OccursAt(text, index, "//") then
      var newline := Find(text, "\n", index);
      LineCommentEnds(text, index);
      var end := if newline < 0 then |text| else newline;
      Ok((Comment(text[index..end]), end))
    else if OccursAt(text, index, "/*") then
      var close := Find(text, "*/", index);
      CloseIsInside(text, index);
      if close < 0 then Err(OpenComment) else Ok((Comment(text[index..close + 2]), close + 2))
    else Ok((Ch(text[index]), index + 1))
  }

  function Lex(text: string, index: nat): Scan<seq<Token>>
    requires index <= |text|
    decreases |text| - index
  {
    if index == |text| then Ok([])
    else
      match NextToken(text, index)
      case Err(error) => Err(error)
      case Ok((token, end)) =>
        match Lex(text, end)
        case Err(error) => Err(error)
        case Ok(rest) => Ok([token] + rest)
  }

  function TextOf(token: Token): string {
    match token
    case Str(text) => text
    case Comment(text) => text
    case Ch(c) => [c]
  }

  function Render(tokens: seq<Token>): string {
    if tokens == [] then "" else TextOf(tokens[0]) + Render(tokens[1..])
  }

  lemma RenderHead(token: Token, rest: seq<Token>)
    ensures Render([token] + rest) == TextOf(token) + Render(rest)
  {
    assert ([token] + rest)[1..] == rest;
  }

  /** The tokens are the text, cut. */
  lemma {:induction false} LexIsLossless(text: string, index: nat)
    requires index <= |text|
    ensures var scan := Lex(text, index); scan.Ok? ==> Render(scan.value) == text[index..]
    decreases |text| - index
  {
    hide NextToken, TextOf, Render;
    if index == |text| {
      assert Render([]) == "" by { RenderNothing(); }
    } else if Lex(text, index).Ok? {
      var (token, end) := NextToken(text, index).value;
      LexIsLossless(text, end);
      RenderHead(token, Lex(text, end).value);
      assert text[index..] == text[index..end] + text[end..];
    }
  }

  // ---- what plain JSON keeps ----

  function SkipSpaces(tokens: seq<Token>): (rest: seq<Token>)
    ensures |rest| <= |tokens|
  {
    if tokens != [] && tokens[0].Ch? && IsSpace(tokens[0].c) then SkipSpaces(tokens[1..]) else tokens
  }

  /** The next token that is not space is a closing bracket. */
  predicate ClosesNext(tokens: seq<Token>) {
    var rest := SkipSpaces(tokens);
    rest != [] && rest[0].Ch? && IsCloser(rest[0].c)
  }

  function Uncommented(tokens: seq<Token>): seq<Token> {
    if tokens == [] then []
    else if tokens[0].Comment? then Uncommented(tokens[1..])
    else [tokens[0]] + Uncommented(tokens[1..])
  }

  /** Tokens with each comma whose next token is a closing bracket left out, and the space between them. */
  function Closed(tokens: seq<Token>): seq<Token>
    decreases |tokens|
  {
    if tokens == [] then []
    else if tokens[0] == Ch(',') && ClosesNext(tokens[1..]) then Closed(SkipSpaces(tokens[1..]))
    else [tokens[0]] + Closed(tokens[1..])
  }

  function Kept(tokens: seq<Token>): seq<Token> {
    Closed(Uncommented(tokens))
  }

  // ---- the scan ----

  predicate EndsInComma(plain: string) {
    var trimmed := TrimRight(plain);
    trimmed != "" && trimmed[|trimmed| - 1] == ','
  }

  function DropLast(s: string): string
    requires s != ""
  {
    s[..|s| - 1]
  }

  /** The text built so far after one more character outside strings and comments. */
  function Append(plain: string, c: char): string {
    if IsCloser(c) && EndsInComma(plain) then DropLast(TrimRight(plain)) + [c] else plain + [c]
  }

  function AppendToken(plain: string, token: Token): string {
    match token
    case Str(text) => plain + text
    case Comment(_) => plain
    case Ch(c) => Append(plain, c)
  }

  function Build(plain: string, tokens: seq<Token>): string
    decreases |tokens|
  {
    if tokens == [] then plain else Build(AppendToken(plain, tokens[0]), tokens[1..])
  }

  /** What the scan does at an index: it fails there, or goes on behind a token that it appends. */
  ghost predicate ScansTo(text: string, start: nat, was: string, index: nat, built: string)
    requires start < |text|
  {
    match NextToken(text, start)
    case Err(_) => false
    case Ok((token, end)) => end == index && AppendToken(was, token) == built
  }

  lemma ScansString(text: string, start: nat, was: string, end: nat)
    requires start < |text| && text[start] == '"'
    requires StringEnd(text, start + 1) == StringEnd(text, end) && (end < |text| ==> text[end] == '"')
    ensures if end >= |text| then NextToken(text, start) == Err(OpenString)
      else start < end && ScansTo(text, start, was, end + 1, was + text[start..end + 1])
  {
    StringEndIsInside(text, start + 1);
  }

  lemma ScansLine(text: string, start: nat, was: string)
    requires start < |text| && text[start] != '"' && OccursAt(text, start, "//")
    ensures var newline := Find(text, "\n", start);
      ScansTo(text, start, was, if newline < 0 then |text| else newline, was)
  {
  }

  lemma ScansBlock(text: string, start: nat, was: string)
    requires start < |text| && text[start] != '"' && !OccursAt(text, start, "//") && OccursAt(text, start, "/*")
    ensures var close := Find(text, "*/", start);
      if close < 0 then NextToken(text, start) == Err(OpenComment) else ScansTo(text, start, was, close + 2, was)
  {
  }

  lemma ScansCharacter(text: string, start: nat, was: string)
    requires start < |text| && text[start] != '"' && !OccursAt(text, start, "//") && !OccursAt(text, start, "/*")
    ensures ScansTo(text, start, was, start + 1, Append(was, text[start]))
  {
  }

  /** `plain_json`: what the scan builds is the text of the tokens kept, and it fails exactly when the text has no tokens. */
  method PlainJson(text: string) returns (plain: Scan<string>)
    ensures match Lex(text, 0)
      case Err(error) => plain == Err(error)
      case Ok(tokens) => plain == Ok(Render(Kept(tokens)))
  {
    hide NextToken, AppendToken, Build, Append, StringEnd, Find, OccursAt, Kept, Render;
    var built := "";
    var index := 0;
    while index < |text|
      invariant 0 <= index <= |text|
      invariant Lex(text, index).Err? ==> Lex(text, 0) == Lex(text, index)
      invariant Lex(text, index).Ok? ==> Lex(text, 0).Ok? && Build("", Lex(text, 0).value) == Build(built, Lex(text, index).value)
    {
      var c := text[index];
      ghost var start := index;
      ghost var was := built;
      if c == '"' {
        var end := index + 1;
        while end < |text| && text[end] != '"'
          invariant index < end
          invariant StringEnd(text, index + 1) == StringEnd(text, end)
        {
          StringGoesOn(text, end);
          end := if text[end] == '\\' then end + 2 else end + 1;
        }
        ScansString(text, index, built, end);
        if end >= |text| {
          return Err(OpenString);
        }
        built := built + text[index..end + 1];
        index := end + 1;
      } else if OccursAt(text, index, "//") {
        ScansLine(text, index, built);
        var newline := Find(text, "\n", index);
        index := if newline < 0 then |text| else newline;
      } else if OccursAt(text, index, "/*") {
        ScansBlock(text, index, built);
        var close := Find(text, "*/", index);
        if close < 0 {
          return Err(OpenComment);
        }
        index := close + 2;
      } else {
        ScansCharacter(text, index, built);
        built := Append(built, c);
        index := index + 1;
      }
      ScanStep(text, start, was, index, built);
    }
    plain := Ok(built);
    BuildNothing(built);
    LexIsScanned(text, 0);
    BuildIsKept(Lex(text, 0).value);
  }

  lemma StringGoesOn(text: string, end: nat)
    requires end < |text| && text[end] != '"'
    ensures StringEnd(text, end) == StringEnd(text, if text[end] == '\\' then end + 2 else end + 1)
  {
  }

  lemma BuildNothing(plain: string)
    ensures Build(plain, []) == plain
  {
  }

  /** Scanning on from behind a token is what is left to scan. */
  lemma ScanStep(text: string, start: nat, was: string, index: nat, built: string)
    requires start < |text| && ScansTo(text, start, was, index, built)
    ensures start < index <= |text|
    ensures Lex(text, index).Err? ==> Lex(text, start) == Lex(text, index)
    ensures Lex(text, index).Ok? ==>
      Lex(text, start).Ok? && Build(was, Lex(text, start).value) == Build(built, Lex(text, index).value)
  {
    hide NextToken, AppendToken, Build;
    LexStep(text, start);
    BuildStep(was, NextToken(text, start).value.0, if Lex(text, index).Ok? then Lex(text, index).value else []);
  }

  lemma BuildStep(plain: string, token: Token, rest: seq<Token>)
    ensures Build(plain, [token] + rest) == Build(AppendToken(plain, token), rest)
  {
    assert ([token] + rest)[1..] == rest;
  }

  lemma LexStep(text: string, index: nat)
    requires index < |text| && NextToken(text, index).Ok?
    ensures var (token, end) := NextToken(text, index).value;
      && (Lex(text, end).Err? ==> Lex(text, index) == Lex(text, end))
      && (Lex(text, end).Ok? ==> Lex(text, index) == Ok([token] + Lex(text, end).value))
  {
    hide NextToken;
  }

  // ---- the scan builds the kept tokens ----

  /** What `Lex` yields: no empty token, and string literals that end in a quote. */
  predicate Scanned(tokens: seq<Token>) {
    forall i :: 0 <= i < |tokens| ==> ScannedToken(tokens[i])
  }

  predicate ScannedToken(token: Token) {
    TextOf(token) != "" && (token.Str? ==> token.text[|token.text| - 1] == '"')
  }

  lemma {:induction false} LexIsScanned(text: string, index: nat)
    requires index <= |text|
    ensures Lex(text, index).Ok? ==> Scanned(Lex(text, index).value)
    decreases |text| - index
  {
    if index < |text| && Lex(text, index).Ok? {
      var (token, end) := NextToken(text, index).value;
      assert ScannedToken(token);
      LexIsScanned(text, end);
      var rest := Lex(text, end).value;
      assert Lex(text, index).value == [token] + rest;
    }
  }

  lemma {:induction false} BuildSkipsComments(plain: string, tokens: seq<Token>)
    ensures Build(plain, Uncommented(tokens)) == Build(plain, tokens)
    decreases |tokens|
  {
    if tokens != [] {
      var rest := tokens[1..];
      match tokens[0]
      case Str(text) => BuildSkipsComments(plain + text, rest);
      case Comment(_) => BuildSkipsComments(plain, rest);
      case Ch(c) => BuildSkipsComments(Append(plain, c), rest);
    }
  }

  lemma {:induction false} UncommentedIsScanned(tokens: seq<Token>)
    requires Scanned(tokens)
    ensures Scanned(Uncommented(tokens))
    ensures forall i :: 0 <= i < |Uncommented(tokens)| ==> !Uncommented(tokens)[i].Comment?
  {
    if tokens != [] {
      assert Scanned(tokens[1..]);
      UncommentedIsScanned(tokens[1..]);
    }
  }

  predicate AllSpace(s: string) {
    forall i :: 0 <= i < |s| ==> IsSpace(s[i])
  }

  lemma {:induction false} TrimPending(base: string, spaces: string)
    requires AllSpace(spaces)
    ensures TrimRight(base + "," + spaces) == base + ","
    decreases |spaces|
  {
    var s := base + "," + spaces;
    if spaces == "" {
      assert s == base + ",";
      assert s[|s| - 1] == ',';
    } else {
      assert s[|s| - 1] == spaces[|spaces| - 1];
      assert s[..|s| - 1] == base + "," + spaces[..|spaces| - 1];
      TrimPending(base, spaces[..|spaces| - 1]);
    }
  }

  lemma LastDecides(base: string, more: string)
    requires more != ""
    requires var last := more[|more| - 1]; last != ',' && (IsSpace(last) ==> |more| == 1 && !EndsInComma(base))
    ensures !EndsInComma(base + more)
  {
    var s := base + more;
    assert s[|s| - 1] == more[|more| - 1];
    if IsSpace(more[|more| - 1]) {
      assert s[..|s| - 1] == base;
    } else {
      assert TrimRight(s) == s;
    }
  }

  lemma RegroupPending(base: string, spaces: string, head: string, tail: string)
    ensures base + "," + spaces + head + tail == base + ("," + spaces + (head + tail))
  {
  }

  /** A token that is no dropped comma is kept in front of what is kept of the rest. */
  lemma KeptHead(tokens: seq<Token>)
    requires tokens != [] && !(tokens[0] == Ch(',') && ClosesNext(tokens[1..]))
    ensures Render(Closed(tokens)) == TextOf(tokens[0]) + Render(Closed(tokens[1..]))
  {
    RenderHead(tokens[0], Closed(tokens[1..]));
  }

  /** With no comma pending, the scan appends what is kept of the rest. */
  lemma {:induction false} BuildWithNothingPending(base: string, tokens: seq<Token>)
    requires Scanned(tokens) && !EndsInComma(base)
    requires forall i :: 0 <= i < |tokens| ==> !tokens[i].Comment?
    ensures Build(base, tokens) == base + Render(Closed(tokens))
    decreases |tokens|
  {
    assert !IsSpace('"');
    hide EndsInComma, Render, IsSpace, TrimRight, SkipSpaces, DropLast;
    if tokens == [] {
      assert Render(Closed(tokens)) == "" by { RenderNothing(); }
      assert base + "" == base;
    } else {
      var rest := tokens[1..];
      assert ScannedToken(tokens[0]);
      match tokens[0]
      case Str(text) =>
        LastDecides(base, text);
        BuildWithNothingPending(base + text, rest);
        KeptHead(tokens);
        Assoc(base, text, Render(Closed(rest)));
      case Ch(c) =>
        if c == ',' {
          assert base + [c] == base + "," + "";
          BuildWithACommaPending(base, "", rest);
          if !ClosesNext(rest) {
            KeptHead(tokens);
            assert "," + "" + Render(Closed(rest)) == [c] + Render(Closed(rest));
          }
        } else {
          LastDecides(base, [c]);
          BuildWithNothingPending(base + [c], rest);
          KeptHead(tokens);
          Assoc(base, [c], Render(Closed(rest)));
        }
    }
  }

  lemma RenderNothing()
    ensures Render([]) == ""
  {
  }

  /** With a comma and spaces pending, they stay unless the next token closes. */
  lemma {:induction false} BuildWithACommaPending(base: string, spaces: string, tokens: seq<Token>)
    requires Scanned(tokens) && AllSpace(spaces)
    requires forall i :: 0 <= i < |tokens| ==> !tokens[i].Comment?
    ensures Build(base + "," + spaces, tokens)
         == base + (if ClosesNext(tokens) then Render(Closed(SkipSpaces(tokens))) else "," + spaces + Render(Closed(tokens)))
    decreases |tokens|
  {
    hide EndsInComma, TrimRight, Render, Closed;
    var plain := base + "," + spaces;
    if tokens == [] {
      ClosedNothing();
      RegroupPending(base, spaces, "", "");
    } else {
      var rest := tokens[1..];
      var head, tail := TextOf(tokens[0]), Render(Closed(rest));
      assert ScannedToken(tokens[0]);
      if tokens[0].Ch? && (IsSpace(tokens[0].c) || IsCloser(tokens[0].c)) {
        KeptHead(tokens);
        if IsSpace(tokens[0].c) {
          Assoc(base + ",", spaces, head);
          BuildWithACommaPending(base, spaces + head, rest);
          Assoc(",", spaces, head);
          Assoc("," + spaces, head, tail);
        } else {
          AppendCloser(base, spaces, tokens[0].c);
          LastDecides(base, head);
          BuildWithNothingPending(base + head, rest);
          Assoc(base, head, tail);
        }
      } else if tokens[0] == Ch(',') {
        assert plain + head == plain + "," + "";
        BuildWithACommaPending(plain, "", rest);
        CommaThenComma(plain, tokens);
        Assoc(base, "," + spaces, Render(Closed(tokens)));
        Assoc(base, ",", spaces);
      } else {
        KeptHead(tokens);
        LastDecides(plain, head);
        BuildWithNothingPending(plain + head, rest);
        RegroupPending(base, spaces, head, tail);
      }
    }
  }

  lemma ClosedNothing()
    ensures Render(Closed([])) == ""
  {
  }

  lemma AppendCloser(base: string, spaces: string, c: char)
    requires AllSpace(spaces) && IsCloser(c)
    ensures Append(base + "," + spaces, c) == base + [c]
  {
    TrimPending(base, spaces);
    assert DropLast(base + ",") == base;
  }

  /** A comma pending in front of the rest is what is kept of the comma and the rest. */
  lemma CommaThenComma(plain: string, tokens: seq<Token>)
    requires tokens != [] && tokens[0] == Ch(',')
    ensures plain + (if ClosesNext(tokens[1..]) then Render(Closed(SkipSpaces(tokens[1..]))) else "," + "" + Render(Closed(tokens[1..])))
         == plain + Render(Closed(tokens))
  {
    hide Render, ClosesNext, SkipSpaces;
    if !ClosesNext(tokens[1..]) {
      KeptHead(tokens);
      hide Closed;
      NoSpaces(Render(Closed(tokens[1..])));
    }
  }

  lemma NoSpaces(tail: string)
    ensures "," + "" + tail == "," + tail
  {
  }

  lemma BuildIsKept(tokens: seq<Token>)
    requires Scanned(tokens)
    ensures Build("", tokens) == Render(Kept(tokens))
  {
    BuildSkipsComments("", tokens);
    UncommentedIsScanned(tokens);
    BuildWithNothingPending("", Uncommented(tokens));
    assert "" + Render(Kept(tokens)) == Render(Kept(tokens));
  }

  // ---- what survives, and when everything does ----

  function StringsOf(tokens: seq<Token>): seq<string> {
    if tokens == [] then []
    else if tokens[0].Str? then [tokens[0].text] + StringsOf(tokens[1..])
    else StringsOf(tokens[1..])
  }

  lemma {:induction false} UncommentedKeepsStrings(tokens: seq<Token>)
    ensures StringsOf(Uncommented(tokens)) == StringsOf(tokens)
  {
    if tokens != [] {
      UncommentedKeepsStrings(tokens[1..]);
      assert ([tokens[0]] + Uncommented(tokens[1..]))[1..] == Uncommented(tokens[1..]);
    }
  }

  lemma {:induction false} SkipSpacesKeepsStrings(tokens: seq<Token>)
    ensures StringsOf(SkipSpaces(tokens)) == StringsOf(tokens)
  {
    if tokens != [] && tokens[0].Ch? && IsSpace(tokens[0].c) {
      SkipSpacesKeepsStrings(tokens[1..]);
    }
  }

  lemma {:induction false} ClosedKeepsStrings(tokens: seq<Token>)
    ensures StringsOf(Closed(tokens)) == StringsOf(tokens)
    decreases |tokens|
  {
    if tokens != [] {
      var rest := tokens[1..];
      if tokens[0] == Ch(',') && ClosesNext(rest) {
        SkipSpacesKeepsStrings(rest);
        ClosedKeepsStrings(SkipSpaces(rest));
      } else {
        ClosedKeepsStrings(rest);
        assert ([tokens[0]] + Closed(rest))[1..] == Closed(rest);
      }
    }
  }

  /** String literals come out unchanged and in order. */
  lemma StringsSurvive(tokens: seq<Token>)
    ensures StringsOf(Kept(tokens)) == StringsOf(tokens)
  {
    UncommentedKeepsStrings(tokens);
    ClosedKeepsStrings(Uncommented(tokens));
  }

  /** No comment, and no comma before a closing bracket. */
  predicate Plain(tokens: seq<Token>) {
    tokens == [] ||
    (!tokens[0].Comment? && !(tokens[0] == Ch(',') && ClosesNext(tokens[1..])) && Plain(tokens[1..]))
  }

  lemma {:induction false} PlainIsKept(tokens: seq<Token>)
    requires Plain(tokens)
    ensures Uncommented(tokens) == tokens && Closed(tokens) == tokens
  {
    if tokens != [] {
      PlainIsKept(tokens[1..]);
    }
  }

  lemma {:induction false} UncommentedShrinks(tokens: seq<Token>)
    requires Scanned(tokens)
    ensures |Render(Uncommented(tokens))| <= |Render(tokens)|
    ensures |Render(Uncommented(tokens))| == |Render(tokens)| ==> Uncommented(tokens) == tokens
  {
    if tokens != [] {
      assert ScannedToken(tokens[0]) && Scanned(tokens[1..]);
      UncommentedShrinks(tokens[1..]);
      RenderHead(tokens[0], Uncommented(tokens[1..]));
    }
  }

  lemma {:induction false} SkipSpacesShrinks(tokens: seq<Token>)
    ensures |Render(SkipSpaces(tokens))| <= |Render(tokens)|
  {
    if tokens != [] && tokens[0].Ch? && IsSpace(tokens[0].c) {
      SkipSpacesShrinks(tokens[1..]);
    }
  }

  lemma {:induction false} ClosedShrinks(tokens: seq<Token>)
    requires forall i :: 0 <= i < |tokens| ==> !tokens[i].Comment?
    ensures |Render(Closed(tokens))| <= |Render(tokens)|
    ensures |Render(Closed(tokens))| == |Render(tokens)| ==> Plain(tokens)
    decreases |tokens|
  {
    if tokens != [] {
      var rest := tokens[1..];
      if tokens[0] == Ch(',') && ClosesNext(rest) {
        SkipSpacesShrinks(rest);
        SkipSpacesHasNoComment(rest);
        ClosedShrinks(SkipSpaces(rest));
      } else {
        ClosedShrinks(rest);
        RenderHead(tokens[0], Closed(rest));
      }
    }
  }

  lemma {:induction false} SkipSpacesHasNoComment(tokens: seq<Token>)
    requires forall i :: 0 <= i < |tokens| ==> !tokens[i].Comment?
    ensures forall i :: 0 <= i < |SkipSpaces(tokens)| ==> !SkipSpaces(tokens)[i].Comment?
  {
    if tokens != [] && tokens[0].Ch? && IsSpace(tokens[0].c) {
      SkipSpacesHasNoComment(tokens[1..]);
    }
  }

  /** The text comes back unchanged exactly when it has no comment and no comma before a closing bracket. */
  lemma IdentityExactlyOnPlainText(text: string)
    requires Lex(text, 0).Ok?
    ensures Render(Kept(Lex(text, 0).value)) == text <==> Plain(Lex(text, 0).value)
  {
    var tokens := Lex(text, 0).value;
    LexIsLossless(text, 0);
    LexIsScanned(text, 0);
    assert text[0..] == text;
    if Plain(tokens) {
      PlainIsKept(tokens);
    } else {
      UncommentedIsScanned(tokens);
      UncommentedShrinks(tokens);
      ClosedShrinks(Uncommented(tokens));
    }
  }

  // ---- the output, lexed again ----

  /** A string literal with its quotes and nothing after it. */
  predicate Literal(text: string) {
    |text| >= 2 && text[0] == '"' && StringEnd(text, 1) == Some(|text| - 1)
  }

  /** A token that lexes as itself on its own: no comment, and a character that opens nothing. */
  predicate Solid(token: Token) {
    match token
    case Str(text) => Literal(text)
    case Comment(_) => false
    case Ch(c) => c != '"'
  }

  /** The next token does not make a comment of a slash before it. */
  predicate Follows(token: Token, next: Token) {
    token == Ch('/') ==> next != Ch('/') && next != Ch('*')
  }

  /** Tokens that stay apart when rendered. */
  predicate Apart(tokens: seq<Token>) {
    && (forall i :: 0 <= i < |tokens| ==> Solid(tokens[i]))
    && forall i :: 0 < i < |tokens| ==> Follows(tokens[i - 1], tokens[i])
  }

  /** A literal closes at the same place whatever follows it. */
  lemma {:induction false} StringEndOfMore(text: string, more: string, end: nat)
    requires StringEnd(text, end).Some?
    ensures StringEnd(text + more, end) == StringEnd(text, end)
    decreases |text| - end
  {
    if text[end] != '"' {
      StringEndOfMore(text, more, if text[end] == '\\' then end + 2 else end + 1);
    }
  }

  lemma {:induction false} StringEndShifted(text: string, from: nat, end: nat)
    requires from <= |text|
    ensures var shifted, whole := StringEnd(text[from..], end), StringEnd(text, from + end);
      shifted.Some? == whole.Some? && (whole.Some? ==> whole.value == from + shifted.value)
    decreases |text| - end
  {
    if from + end < |text| && text[from + end] != '"' {
      StringEndShifted(text, from, if text[from + end] == '\\' then end + 2 else end + 1);
    }
  }

  lemma {:induction false} StringEndOfCut(text: string, cut: nat, end: nat)
    requires StringEnd(text, end).Some? && StringEnd(text, end).value < cut <= |text|
    ensures StringEnd(text[..cut], end) == StringEnd(text, end)
    decreases |text| - end
  {
    StringEndIsInside(text, end);
    if text[end] != '"' {
      StringEndIsInside(text, if text[end] == '\\' then end + 2 else end + 1);
      StringEndOfCut(text, cut, if text[end] == '\\' then end + 2 else end + 1);
    }
  }

  /** The first token of a rendering is the first token. */
  lemma FirstTokenBack(token: Token, rest: seq<Token>)
    requires Solid(token) && (rest != [] ==> Follows(token, rest[0]) && Solid(rest[0]))
    ensures var text := TextOf(token) + Render(rest);
      text != "" && NextToken(text, 0) == Ok((token, |TextOf(token)|))
  {
    var text := TextOf(token) + Render(rest);
    match token {
      case Str(literal) =>
        StringEndOfMore(literal, Render(rest), 1);
        assert text[0..|literal|] == literal;
      case Ch(c) =>
        assert text[0] == c;
        if c == '/' && |text| >= 2 {
          SecondIsNext(rest);
          assert text[0..2][1] == text[1] == Render(rest)[0];
        }
    }
  }

  /** A rendering starts with a slash or a star only if its first token is one. */
  lemma SecondIsNext(rest: seq<Token>)
    requires rest != [] && Solid(rest[0]) && rest[0] != Ch('/') && rest[0] != Ch('*')
    ensures Render(rest) != "" && Render(rest)[0] != '/' && Render(rest)[0] != '*'
  {
    assert TextOf(rest[0]) != "";
    assert Render(rest)[0] == TextOf(rest[0])[0];
  }

  /** Solid tokens that stay apart are what their rendering lexes to. */
  lemma {:induction false} RenderingLexesBack(tokens: seq<Token>)
    requires Apart(tokens)
    ensures Lex(Render(tokens), 0) == Ok(tokens)
  {
    if tokens != [] {
      var rest := tokens[1..];
      var first, text := TextOf(tokens[0]), Render(tokens);
      assert forall i :: 0 <= i < |rest| ==> rest[i] == tokens[i + 1];
      RenderingLexesBack(rest);
      FirstTokenBack(tokens[0], rest);
      hide NextToken, Solid, TextOf;
      LexShifted(first, Render(rest), 0);
      assert tokens == [tokens[0]] + rest;
    }
  }

  /** What is lexed from a point on does not depend on what stands before it. */
  lemma {:induction false} LexShifted(before: string, text: string, index: nat)
    requires index <= |text|
    ensures Lex(before + text, |before| + index) == Lex(text, index)
    decreases |text| - index
  {
    hide Lex, NextToken;
    if index < |text| {
      NextShifted(before, text, index);
      if NextToken(text, index).Ok? {
        LexShifted(before, text, NextToken(text, index).value.1);
      }
      LexStepsAlike(text, index, before + text, |before| + index);
    } else {
      LexEnds(text);
      LexEnds(before + text);
    }
  }

  lemma LexEnds(text: string)
    ensures Lex(text, |text|) == Ok([])
  {
  }

  /** Two texts that have the same next token, and the same tokens behind it, lex alike. */
  lemma LexStepsAlike(a: string, i: nat, b: string, j: nat)
    requires i < |a| && j < |b|
    requires match NextToken(a, i)
      case Err(error) => NextToken(b, j) == Err(error)
      case Ok((token, end)) => NextToken(b, j).Ok? && NextToken(b, j).value.0 == token && Lex(b, NextToken(b, j).value.1) == Lex(a, end)
    ensures Lex(a, i) == Lex(b, j)
  {
    hide NextToken;
  }

  lemma OccursShifted(before: string, text: string, index: nat, sub: string)
    ensures OccursAt(before + text, |before| + index, sub) <==> OccursAt(text, index, sub)
  {
    if index + |sub| <= |text| {
      assert (before + text)[|before| + index..|before| + index + |sub|] == text[index..index + |sub|];
    }
  }

  lemma {:induction false} FindShifted(before: string, text: string, sub: string, index: nat)
    ensures var found, whole := Find(text, sub, index), Find(before + text, sub, |before| + index);
      whole == if found < 0 then -1 else |before| + found
    decreases |text| + 1 - index
  {
    OccursShifted(before, text, index, sub);
    if index + |sub| <= |text| && !OccursAt(text, index, sub) {
      FindShifted(before, text, sub, index + 1);
    }
  }

  lemma SliceShifted(before: string, text: string, i: nat, j: nat)
    requires i <= j <= |text|
    ensures (before + text)[|before| + i..|before| + j] == text[i..j]
  {
  }

  /** The whole text's token at a shifted index is the part's, shifted. */
  ghost predicate TokenShifts(before: string, text: string, index: nat)
    requires index < |text|
  {
    match NextToken(text, index)
    case Err(error) => NextToken(before + text, |before| + index) == Err(error)
    case Ok((token, end)) => NextToken(before + text, |before| + index) == Ok((token, |before| + end))
  }

  lemma NextShifted(before: string, text: string, index: nat)
    requires index < |text|
    ensures TokenShifts(before, text, index)
  {
    OccursShifted(before, text, index, "//");
    OccursShifted(before, text, index, "/*");
    if text[index] == '"' {
      StringShifted(before, text, index);
    } else if OccursAt(text, index, "//") {
      LineCommentShifted(before, text, index);
    } else if OccursAt(text, index, "/*") {
      BlockCommentShifted(before, text, index);
    } else {
      hide OccursAt;
    }
  }

  lemma LineCommentShifted(before: string, text: string, index: nat)
    requires index < |text| && text[index] != '"' && OccursAt(text, index, "//")
    ensures TokenShifts(before, text, index)
  {
    OccursShifted(before, text, index, "//");
    FindShifted(before, text, "\n", index);
    var newline := Find(text, "\n", index);
    assert newline <= |text|;
    hide OccursAt, StringEnd, Find;
    SliceShifted(before, text, index, if newline < 0 then |text| else newline);
  }

  lemma BlockCommentShifted(before: string, text: string, index: nat)
    requires index < |text| && text[index] != '"' && !OccursAt(text, index, "//") && OccursAt(text, index, "/*")
    ensures TokenShifts(before, text, index)
  {
    OccursShifted(before, text, index, "//");
    OccursShifted(before, text, index, "/*");
    FindShifted(before, text, "*/", index);
    var close := Find(text, "*/", index);
    CloseIsInside(text, index);
    if close >= 0 {
      SliceShifted(before, text, index, close + 2);
    }
    hide OccursAt, StringEnd, Find;
  }

  lemma StringShifted(before: string, text: string, index: nat)
    requires index < |text| && text[index] == '"'
    ensures TokenShifts(before, text, index)
  {
    StringEndShifted(before + text, |before|, index + 1);
    assert (before + text)[|before|..] == text;
    StringEndIsInside(text, index + 1);
    var close := StringEnd(text, index + 1);
    if close.Some? {
      SliceShifted(before, text, index, close.value + 1);
    }
  }

  /** Tokens as they come from a text: literals whole, and no slash before what it would make a comment of. */
  predicate Cut(tokens: seq<Token>) {
    && (forall i :: 0 <= i < |tokens| ==> Solid(tokens[i]) || tokens[i].Comment?)
    && forall i :: 0 < i < |tokens| ==> Follows(tokens[i - 1], tokens[i]) && (tokens[i - 1] == Ch('/') ==> !tokens[i].Comment?)
  }

  lemma NextIsSolid(text: string, index: nat)
    requires index < |text| && NextToken(text, index).Ok?
    ensures Solid(NextToken(text, index).value.0) || NextToken(text, index).value.0.Comment?
  {
    if text[index] == '"' {
      StringEndIsInside(text, index + 1);
      var close := StringEnd(text, index + 1).value;
      StringEndOfCut(text, close + 1, index + 1);
      StringEndShifted(text[..close + 1], index, 1);
      assert text[..close + 1][index..] == text[index..close + 1];
    }
  }

  /** A slash that is a token of its own is followed by neither slash nor star. */
  lemma AfterASlash(text: string, index: nat)
    requires index + 1 < |text| && NextToken(text, index) == Ok((Ch('/'), index + 1)) && NextToken(text, index + 1).Ok?
    ensures var next := NextToken(text, index + 1).value.0; !next.Comment? && next != Ch('/') && next != Ch('*')
  {
    assert text[index] == '/' && text[index..index + 2] == [text[index], text[index + 1]];
    assert !OccursAt(text, index, "//") && !OccursAt(text, index, "/*");
    assert text[index + 1] != '/' && text[index + 1] != '*';
    if index + 3 <= |text| {
      assert text[index + 1..index + 3][0] == text[index + 1];
    }
  }

  lemma {:induction false} LexIsCut(text: string, index: nat)
    requires index <= |text| && Lex(text, index).Ok?
    ensures Cut(Lex(text, index).value)
    decreases |text| - index
  {
    hide NextToken, Solid;
    if index < |text| {
      var (token, end) := NextToken(text, index).value;
      NextIsSolid(text, index);
      LexIsCut(text, end);
      if token == Ch('/') && end < |text| {
        SlashIsOneCharacter(text, index);
        AfterASlash(text, index);
      }
    }
  }

  lemma SlashIsOneCharacter(text: string, index: nat)
    requires index < |text| && NextToken(text, index).Ok? && NextToken(text, index).value.0.Ch?
    ensures NextToken(text, index).value.1 == index + 1
  {
  }

  lemma ApartHead(token: Token, rest: seq<Token>)
    requires Solid(token) && Apart(rest) && (rest != [] ==> Follows(token, rest[0]))
    ensures Apart([token] + rest)
  {
    hide Solid;
    var tokens := [token] + rest;
    assert tokens[0] == token && forall i :: 0 <= i < |rest| ==> rest[i] == tokens[i + 1];
    forall i | 0 < i < |tokens| ensures Follows(tokens[i - 1], tokens[i]) {
      if i > 1 {
        assert Follows(rest[i - 2], rest[i - 1]);
      }
    }
  }

  lemma {:induction false} UncommentedIsApart(tokens: seq<Token>)
    requires Cut(tokens)
    ensures Apart(Uncommented(tokens))
    ensures tokens != [] && !tokens[0].Comment? ==> Uncommented(tokens) != [] && Uncommented(tokens)[0] == tokens[0]
  {
    hide Solid, Apart, Follows;
    if tokens == [] {
      NothingIsApart();
    } else {
      var rest := tokens[1..];
      assert forall i :: 0 <= i < |rest| ==> rest[i] == tokens[i + 1];
      assert Cut(rest);
      UncommentedIsApart(rest);
      if !tokens[0].Comment? {
        UncommentedFollows(tokens);
        ApartHead(tokens[0], Uncommented(rest));
      }
    }
  }

  lemma NothingIsApart()
    ensures Apart([])
  {
  }

  /** What is left after a token still does not make a comment of it. */
  lemma UncommentedFollows(tokens: seq<Token>)
    requires Cut(tokens) && tokens != [] && !tokens[0].Comment?
    requires tokens[1..] != [] && !tokens[1].Comment? ==> Uncommented(tokens[1..]) != [] && Uncommented(tokens[1..])[0] == tokens[1]
    ensures Uncommented(tokens[1..]) != [] ==> Follows(tokens[0], Uncommented(tokens[1..])[0])
  {
    hide Solid;
    if tokens[0] == Ch('/') && tokens[1..] != [] {
      assert Follows(tokens[0], tokens[1]) && !tokens[1].Comment?;
    }
  }

  lemma {:induction false} ClosedIsApart(tokens: seq<Token>)
    requires Apart(tokens)
    ensures Apart(Closed(tokens))
    ensures Closed(tokens) != [] ==> tokens != [] && (Closed(tokens)[0] == tokens[0] || IsBracket(Closed(tokens)[0]))
    decreases |tokens|
  {
    hide Apart;
    if tokens != [] {
      var rest := tokens[1..];
      ApartTail(tokens);
      if tokens[0] == Ch(',') && ClosesNext(rest) {
        SkipSpacesIsApart(rest);
        ClosedIsApart(SkipSpaces(rest));
      } else {
        ClosedIsApart(rest);
        ApartHead(tokens[0], Closed(rest));
      }
    }
  }

  lemma ApartTail(tokens: seq<Token>)
    requires Apart(tokens) && tokens != []
    ensures Solid(tokens[0]) && Apart(tokens[1..]) && (tokens[1..] != [] ==> Follows(tokens[0], tokens[1]))
  {
    hide Solid;
    assert forall i :: 0 <= i < |tokens[1..]| ==> tokens[1..][i] == tokens[i + 1];
    assert forall i :: 0 < i < |tokens[1..]| ==> Follows(tokens[i], tokens[i + 1]);
  }

  predicate IsBracket(token: Token) {
    token.Ch? && IsCloser(token.c)
  }

  lemma {:induction false} SkipSpacesIsApart(tokens: seq<Token>)
    requires Apart(tokens)
    ensures Apart(SkipSpaces(tokens))
  {
    hide Apart, IsSpace;
    if tokens != [] {
      ApartTail(tokens);
      SkipSpacesIsApart(tokens[1..]);
    }
  }

  /**
   * The output is not just the kept tokens' text: lexed again it is those tokens, whatever was dropped between them. So
   * nothing that was dropped glues two of them together, and the strings of the output are those of the input.
   */
  lemma OutputLexesBack(text: string)
    requires Lex(text, 0).Ok?
    ensures var tokens := Lex(text, 0).value;
      && Lex(Render(Kept(tokens)), 0) == Ok(Kept(tokens))
      && StringsOf(Kept(tokens)) == StringsOf(tokens)
  {
    var tokens := Lex(text, 0).value;
    LexIsCut(text, 0);
    hide Lex, Cut, Apart, Closed, Uncommented;
    UncommentedIsApart(tokens);
    ClosedIsApart(Uncommented(tokens));
    RenderingLexesBack(Kept(tokens));
    StringsSurvive(tokens);
  }

  // ---- block comments as JSONC has them ----

  /** The next token of JSONC: the end of a block comment is looked for after its opening, not from its slash on. */
  function NextJsonc(text: string, index: nat): (scan: Scan<(Token, nat)>)
    requires index < |text|
    ensures scan.Ok? ==> index < scan.value.1 <= |text|
  {
    if text[index] != '"' && !OccursAt(text, index, "//") && OccursAt(text, index, "/*") then
      var close := Find(text, "*/", index + 2);
      CloseIsInside(text, index + 2);
      if close < 0 then Err(OpenComment) else Ok((Comment(text[index..close + 2]), close + 2))
    else NextToken(text, index)
  }

  function LexJsonc(text: string, index: nat): Scan<seq<Token>>
    requires index <= |text|
    decreases |text| - index
  {
    if index == |text| then Ok([])
    else
      match NextJsonc(text, index)
      case Err(error) => Err(error)
      case Ok((token, end)) =>
        match LexJsonc(text, end)
        case Err(error) => Err(error)
        case Ok(rest) => Ok([token] + rest)
  }

  /** A block comment whose first character is a slash. */
  predicate OpensWithASlash(token: Token) {
    token.Comment? && OccursAt(token.text, 0, "/*/")
  }

  /** The two lexers part exactly at a block comment whose first character is a slash. */
  lemma NextAgreesExactlyWhen(text: string, index: nat)
    requires index < |text| && NextJsonc(text, index).Ok?
    ensures NextToken(text, index) == NextJsonc(text, index) <==> !OpensWithASlash(NextJsonc(text, index).value.0)
    ensures NextToken(text, index).Ok? && NextToken(text, index).value.0 == NextJsonc(text, index).value.0 ==>
      NextToken(text, index) == NextJsonc(text, index)
  {
    if text[index] != '"' && !OccursAt(text, index, "//") && OccursAt(text, index, "/*") {
      BlockCommentAgreesExactlyWhen(text, index);
    } else if text[index] != '"' && OccursAt(text, index, "//") {
      LineCommentIsNoBlock(text, index);
    }
  }

  lemma LineCommentIsNoBlock(text: string, index: nat)
    requires index < |text| && text[index] != '"' && OccursAt(text, index, "//")
    ensures !OpensWithASlash(NextToken(text, index).value.0)
  {
    var comment := NextToken(text, index).value.0.text;
    assert text[index + 1] == text[index..index + 2][1] == '/';
    if |comment| >= 3 {
      assert comment[0..3][1] == comment[1] == text[index + 1];
    }
  }

  lemma OccursPair(text: string, index: nat, a: char, b: char)
    ensures OccursAt(text, index, [a, b]) <==> index + 2 <= |text| && text[index] == a && text[index + 1] == b
  {
    if index + 2 <= |text| {
      assert text[index..index + 2] == [text[index], text[index + 1]];
    }
  }

  lemma StartsTriple(text: string, a: char, b: char, c: char)
    requires |text| >= 3
    ensures OccursAt(text, 0, [a, b, c]) <==> text[0] == a && text[1] == b && text[2] == c
  {
    assert text[0..3] == [text[0], text[1], text[2]];
  }

  /** The code's search finds the comment's own star if a slash follows it, and JSONC's end otherwise. */
  lemma BlockCommentEnds(text: string, index: nat)
    requires OccursAt(text, index, "/*") && Find(text, "*/", index + 2) >= 0
    ensures index + 4 <= Find(text, "*/", index + 2) + 2 <= |text|
    ensures Find(text, "*/", index) == if text[index + 2] == '/' then index + 1 else Find(text, "*/", index + 2)
    ensures text[index] == '/' && text[index + 1] == '*'
  {
    CloseIsInside(text, index + 2);
    assert "/*" == ['/', '*'] && "*/" == ['*', '/'];
    OccursPair(text, index, '/', '*');
    OccursPair(text, index, '*', '/');
    OccursPair(text, index + 1, '*', '/');
    hide OccursAt;
  }

  lemma BlockCommentAgreesExactlyWhen(text: string, index: nat)
    requires index < |text| && text[index] != '"' && !OccursAt(text, index, "//") && OccursAt(text, index, "/*")
    requires Find(text, "*/", index + 2) >= 0
    ensures var comment := NextJsonc(text, index).value.0;
      if OpensWithASlash(comment) then NextToken(text, index).Ok? && NextToken(text, index).value.0 != comment
      else NextToken(text, index) == NextJsonc(text, index)
  {
    hide Find, NextToken, NextJsonc, OccursAt;
    BlockCommentEnds(text, index);
    NextBlock(text, index);
    var end := Find(text, "*/", index + 2) + 2;
    CommentOpensWithASlash(text, index, end);
    if text[index + 2] == '/' {
      assert |text[index..index + 3]| < |text[index..end]|;
    }
  }

  /** What the two lexers make of a block comment. */
  lemma NextBlock(text: string, index: nat)
    requires index < |text| && text[index] != '"' && !OccursAt(text, index, "//") && OccursAt(text, index, "/*")
    requires Find(text, "*/", index) >= 0 && Find(text, "*/", index + 2) >= 0
    requires Find(text, "*/", index) + 2 <= |text| && Find(text, "*/", index + 2) + 2 <= |text|
    ensures var end := Find(text, "*/", index) + 2; NextToken(text, index) == Ok((Comment(text[index..end]), end))
    ensures var end := Find(text, "*/", index + 2) + 2; NextJsonc(text, index) == Ok((Comment(text[index..end]), end))
  {
    hide Find, OccursAt, StringEnd;
  }

  lemma CommentOpensWithASlash(text: string, index: nat, end: nat)
    requires index + 4 <= end <= |text| && text[index] == '/' && text[index + 1] == '*'
    ensures OpensWithASlash(Comment(text[index..end])) <==> text[index + 2] == '/'
  {
    var comment := text[index..end];
    assert "/*/" == ['/', '*', '/'];
    StartsTriple(comment, '/', '*', '/');
    hide OccursAt;
    assert comment[0] == text[index] && comment[1] == text[index + 1] && comment[2] == text[index + 2];
  }

  ghost predicate NoneOpensWithASlash(tokens: seq<Token>) {
    forall i :: 0 <= i < |tokens| ==> !OpensWithASlash(tokens[i])
  }

  /** The code cuts JSONC as JSONC is cut exactly when no block comment's first character is a slash. */
  lemma {:induction false} LexIsJsoncExactlyWhen(text: string, index: nat)
    requires index <= |text| && LexJsonc(text, index).Ok?
    ensures Lex(text, index) == LexJsonc(text, index) <==> NoneOpensWithASlash(LexJsonc(text, index).value)
    decreases |text| - index
  {
    hide NextToken, NextJsonc, OpensWithASlash;
    if index < |text| {
      var (token, end) := NextJsonc(text, index).value;
      var rest := LexJsonc(text, end).value;
      NextAgreesExactlyWhen(text, index);
      LexIsJsoncExactlyWhen(text, end);
      assert LexJsonc(text, index).value == [token] + rest;
      NoneOfMore(token, rest);
      if Lex(text, index) == LexJsonc(text, index) {
        assert Lex(text, index).value[0] == token;
        assert NextToken(text, index).value.0 == token;
        assert Lex(text, end).value == Lex(text, index).value[1..] == rest;
      }
    }
  }

  lemma NoneOfMore(token: Token, rest: seq<Token>)
    ensures NoneOpensWithASlash([token] + rest) <==> !OpensWithASlash(token) && NoneOpensWithASlash(rest)
  {
    hide OpensWithASlash;
    var tokens := [token] + rest;
    assert tokens[0] == token && forall i :: 0 <= i < |rest| ==> rest[i] == tokens[i + 1];
  }

  /** `/`, `*`, `/`, a space, `*`, `/`: where anything opens or closes. */
  lemma Pairs(text: string)
    requires text == "/*/ */"
    ensures text == ['/', '*', '/', ' ', '*', '/']
    ensures forall i: nat :: OccursAt(text, i, "//") <==> false
    ensures forall i: nat :: OccursAt(text, i, "/*") <==> i == 0
    ensures forall i: nat :: OccursAt(text, i, "*/") <==> i == 1 || i == 4
  {
    assert "//" == ['/', '/'] && "/*" == ['/', '*'] && "*/" == ['*', '/'];
    forall i: nat
      ensures !OccursAt(text, i, "//") && (OccursAt(text, i, "/*") <==> i == 0) && (OccursAt(text, i, "*/") <==> i == 1 || i == 4)
    {
      OccursPair(text, i, '/', '/');
      OccursPair(text, i, '/', '*');
      OccursPair(text, i, '*', '/');
      hide OccursAt;
    }
  }

  lemma AllOfItIsJsonc()
    ensures LexJsonc("/*/ */", 0) == Ok([Comment("/*/ */")])
  {
    var text := "/*/ */";
    Pairs(text);
    hide OccursAt, StringEnd;
    assert Find(text, "*/", 2) == 4 && text[0..6] == text;
    hide Find;
    assert NextJsonc(text, 0) == Ok((Comment(text), 6));
    hide NextJsonc;
    assert LexJsonc(text, 6) == Ok([]);
    assert [Comment(text)] + [] == [Comment(text)];
  }

  lemma EndIsLeft()
    ensures Lex("/*/ */", 0) == Ok([Comment("/*/")] + ([Ch(' ')] + ([Ch('*')] + ([Ch('/')] + []))))
  {
    var text := "/*/ */";
    TokensOfIt(text);
    hide NextToken;
    assert Lex(text, 6) == Ok([]);
    assert Lex(text, 5) == Ok([Ch('/')] + []);
    assert Lex(text, 4) == Ok([Ch('*')] + ([Ch('/')] + []));
    assert Lex(text, 3) == Ok([Ch(' ')] + ([Ch('*')] + ([Ch('/')] + [])));
  }

  lemma TokensOfIt(text: string)
    requires text == "/*/ */"
    ensures NextToken(text, 0) == Ok((Comment("/*/"), 3)) && NextToken(text, 3) == Ok((Ch(' '), 4))
    ensures NextToken(text, 4) == Ok((Ch('*'), 5)) && NextToken(text, 5) == Ok((Ch('/'), 6))
  {
    Pairs(text);
    hide OccursAt, StringEnd;
    assert Find(text, "*/", 0) == 1 && text[0..3] == "/*/";
    hide Find;
  }

  lemma KeptOfIt()
    ensures Render(Kept([Comment("/*/")] + ([Ch(' ')] + ([Ch('*')] + ([Ch('/')] + []))))) == " */"
  {
    var tokens := [Comment("/*/")] + ([Ch(' ')] + ([Ch('*')] + ([Ch('/')] + [])));
    var kept := [Ch(' '), Ch('*'), Ch('/')];
    assert tokens[1..] == kept;
    assert Uncommented(kept) == kept && Closed(kept) == kept;
    assert Render(kept) == " */";
  }

  /** A text that is one comment, of which the code leaves the end. */
  lemma ACommentCanBeLeftInPart()
    ensures LexJsonc("/*/ */", 0) == Ok([Comment("/*/ */")])
    ensures Lex("/*/ */", 0).Ok? && Render(Kept(Lex("/*/ */", 0).value)) == " */"
  {
    hide Lex, LexJsonc, Kept, Render;
    AllOfItIsJsonc();
    EndIsLeft();
    KeptOfIt();
  }
}
