/** farrier/farrier/home_entries.py, `plain_json`: which tokens the scan keeps, one by one. */
module PlainJsonKept {
  import opened Text
  import opened PlainJson

  predicate IsBlank(token: Token) {
    token.Ch? && IsSpace(token.c)
  }

  predicate IsClosing(token: Token) {
    token == Ch('}') || token == Ch(']')
  }

  /** Between the two indices there is nothing but space. */
  predicate OnlyBlanks(tokens: seq<Token>, i: nat, j: nat)
    requires j <= |tokens|
  {
    forall k :: i <= k < j ==> IsBlank(tokens[k])
  }

  /** A comma that, but for space, a closing bracket follows. */
  predicate IsTrailing(tokens: seq<Token>, i: nat)
    requires i < |tokens|
  {
    tokens[i] == Ch(',') && exists j :: i < j < |tokens| && IsClosing(tokens[j]) && OnlyBlanks(tokens, i + 1, j)
  }

  /** The token is such a comma, or space that follows one. */
  predicate IsDropped(tokens: seq<Token>, i: nat)
    requires i < |tokens|
  {
    IsTrailing(tokens, i) || (IsBlank(tokens[i]) && Follows(tokens, i))
  }

  /** A trailing comma stands before, with nothing but space since. */
  predicate Follows(tokens: seq<Token>, i: nat)
    requires i <= |tokens|
  {
    exists h :: 0 <= h < i && IsTrailing(tokens, h) && OnlyBlanks(tokens, h + 1, i)
  }

  /** The tokens from `i` on that are not dropped. */
  function NotDropped(tokens: seq<Token>, i: nat): seq<Token>
    requires i <= |tokens|
    decreases |tokens| - i
  {
    if i == |tokens| then []
    else (if IsDropped(tokens, i) then [] else [tokens[i]]) + NotDropped(tokens, i + 1)
  }

  /** The tokens that are no comments. */
  function NoComments(tokens: seq<Token>): seq<Token> {
    if tokens == [] then [] else (if tokens[0].Comment? then [] else [tokens[0]]) + NoComments(tokens[1..])
  }

  lemma {:induction false} SkipSpacesIs(tokens: seq<Token>, i: nat)
    requires i <= |tokens|
    ensures var j := |tokens| - |SkipSpaces(tokens[i..])|;
      && i <= j <= |tokens| && SkipSpaces(tokens[i..]) == tokens[j..] && OnlyBlanks(tokens, i, j)
      && (j < |tokens| ==> !IsBlank(tokens[j]))
    decreases |tokens| - i
  {
    if i < |tokens| && IsBlank(tokens[i]) {
      assert tokens[i..][1..] == tokens[i + 1..];
      SkipSpacesIs(tokens, i + 1);
    }
  }

  lemma TrailingExactlyWhen(tokens: seq<Token>, i: nat)
    requires i < |tokens| && tokens[i] == Ch(',')
    ensures ClosesNext(tokens[i + 1..]) <==> IsTrailing(tokens, i)
  {
    SkipSpacesIs(tokens, i + 1);
    var j := |tokens| - |SkipSpaces(tokens[i + 1..])|;
    BracketsAreNoSpace();
    if k :| i < k < |tokens| && IsClosing(tokens[k]) && OnlyBlanks(tokens, i + 1, k) {
      assert !IsBlank(tokens[k]);
    }
  }

  lemma BracketsAreNoSpace()
    ensures !IsSpace('}') && !IsSpace(']') && !IsSpace(',')
  {
  }

  lemma {:induction false} BlanksAreDropped(tokens: seq<Token>, i: nat, j: nat)
    requires i <= j <= |tokens| && Follows(tokens, i) && OnlyBlanks(tokens, i, j)
    ensures NotDropped(tokens, i) == NotDropped(tokens, j)
    decreases j - i
  {
    if i < j {
      FollowsOn(tokens, i);
      BlanksAreDropped(tokens, i + 1, j);
    }
  }

  lemma FollowsOn(tokens: seq<Token>, i: nat)
    requires i < |tokens| && Follows(tokens, i) && IsBlank(tokens[i])
    ensures Follows(tokens, i + 1)
  {
    var h :| 0 <= h < i && IsTrailing(tokens, h) && OnlyBlanks(tokens, h + 1, i);
    assert OnlyBlanks(tokens, h + 1, i + 1);
  }

  lemma FollowsNothingNew(tokens: seq<Token>, i: nat)
    requires i < |tokens| && !IsTrailing(tokens, i) && Follows(tokens, i + 1)
    ensures IsBlank(tokens[i]) && Follows(tokens, i)
  {
    var h :| 0 <= h < i + 1 && IsTrailing(tokens, h) && OnlyBlanks(tokens, h + 1, i + 1);
    assert h < i;
    assert OnlyBlanks(tokens, h + 1, i);
  }

  lemma {:induction false} ClosedIs(tokens: seq<Token>, i: nat)
    requires i <= |tokens|
    requires i < |tokens| && IsBlank(tokens[i]) ==> !Follows(tokens, i)
    ensures Closed(tokens[i..]) == NotDropped(tokens, i)
    decreases |tokens| - i
  {
    hide IsTrailing, Follows, OnlyBlanks, Closed, SkipSpaces, NotDropped, IsBlank;
    if i == |tokens| {
      ClosedNothingIs(tokens);
    } else if IsTrailing(tokens, i) {
      SkipSpacesIs(tokens, i + 1);
      var j := |tokens| - |SkipSpaces(tokens[i + 1..])|;
      ATrailingCommaIsFollowed(tokens, i);
      BlanksAreDropped(tokens, i + 1, j);
      ClosedIs(tokens, j);
      DroppedStep(tokens, i, j);
    } else {
      if i + 1 < |tokens| && Follows(tokens, i + 1) {
        FollowsNothingNew(tokens, i);
      }
      ClosedIs(tokens, i + 1);
      KeptStep(tokens, i);
    }
  }

  lemma ClosedNothingIs(tokens: seq<Token>)
    ensures Closed(tokens[|tokens|..]) == NotDropped(tokens, |tokens|)
  {
  }

  lemma DroppedStep(tokens: seq<Token>, i: nat, j: nat)
    requires i < j <= |tokens| && IsTrailing(tokens, i) && tokens[i] == Ch(',') && SkipSpaces(tokens[i + 1..]) == tokens[j..]
    requires NotDropped(tokens, i + 1) == NotDropped(tokens, j) == Closed(tokens[j..])
    ensures Closed(tokens[i..]) == NotDropped(tokens, i)
  {
    TrailingExactlyWhen(tokens, i);
    hide IsTrailing, ClosesNext, SkipSpaces;
    assert tokens[i..][1..] == tokens[i + 1..] && tokens[i..][0] == tokens[i];
  }

  lemma KeptStep(tokens: seq<Token>, i: nat)
    requires i < |tokens| && !IsTrailing(tokens, i) && (IsBlank(tokens[i]) ==> !Follows(tokens, i))
    requires NotDropped(tokens, i + 1) == Closed(tokens[i + 1..])
    ensures Closed(tokens[i..]) == NotDropped(tokens, i)
  {
    if tokens[i] == Ch(',') {
      TrailingExactlyWhen(tokens, i);
    }
    hide IsTrailing, ClosesNext, SkipSpaces, IsBlank, Follows;
    assert tokens[i..][1..] == tokens[i + 1..] && tokens[i..][0] == tokens[i];
  }

  lemma ATrailingCommaIsFollowed(tokens: seq<Token>, i: nat)
    requires i < |tokens| && IsTrailing(tokens, i)
    ensures tokens[i] == Ch(',') && Follows(tokens, i + 1)
  {
    assert OnlyBlanks(tokens, i + 1, i + 1);
  }

  lemma {:induction false} UncommentedIs(tokens: seq<Token>)
    ensures Uncommented(tokens) == NoComments(tokens)
  {
    if tokens != [] {
      UncommentedIs(tokens[1..]);
    }
  }

  /**
   * Of the tokens that are no comments the scan keeps all, in order, but each comma that nothing but space parts from a
   * closing bracket, and that space.
   */
  lemma KeptExactly(tokens: seq<Token>)
    ensures Kept(tokens) == NotDropped(NoComments(tokens), 0)
  {
    UncommentedIs(tokens);
    var plain := NoComments(tokens);
    assert plain[0..] == plain;
    ClosedIs(plain, 0);
  }
}
