/** The string loops of StrFns.cpp, proved against functions on whole strings. */
module StrFns {
  import opened Results
  import opened Text

  method IntoWhitespaceLoop(str: string) returns (whitespace: string)
    ensures whitespace == IntoWhitespace(str)
  {
    whitespace := "";
    for i := 0 to |str|
      invariant whitespace == IntoWhitespace(str[..i])
    {
      assert str[..i + 1][..i] == str[..i];
      whitespace := whitespace + (if str[i] == '\t' then "\t" else " ");
    }
    assert str[..|str|] == str;
  }

  /** join: the parts from a position on, with a separator between them. */
  method JoinLoop(vec: seq<string>, str: string, spos: nat) returns (ans: string)
    ensures ans == if spos < |vec| then Join(vec[spos..], str) else ""
  {
    hide Join;
    ans := "";
    if spos < |vec| {
      ans := ans + vec[spos];
      JoinOne(vec[spos], str);
      assert vec[spos..spos + 1] == [vec[spos]];
      for v := spos + 1 to |vec|
        invariant ans == Join(vec[spos..v], str)
      {
        JoinSnoc(vec[spos..v], vec[v], str);
        assert vec[spos..v + 1] == vec[spos..v] + [vec[v]];
        ans := ans + (str + vec[v]);
      }
      assert vec[spos..|vec|] == vec[spos..];
    }
  }

  // ---- findAndReplaceAll ----

  /** The pieces around the leftmost occurrences that do not overlap. */
  function Split(s: string, pat: string): (pieces: seq<string>)
    requires pat != ""
    ensures |pieces| > 0
    decreases |s|
  {
    match Find(s, pat, 0)
    case None => [s]
    case Some(i) => [s[..i]] + Split(s[i + |pat|..], pat)
  }

  /**
   Pieces between leftmost occurrences: after each but the last the pattern first occurs where
   the piece ends; in the last it does not occur.
   */
  predicate Leftmost(pieces: seq<string>, pat: string) {
    && |pieces| > 0
    && (forall k | 0 <= k < |pieces| - 1 :: Find(Join(pieces[k..], pat), pat, 0) == Some(|pieces[k]|))
    && Find(pieces[|pieces| - 1], pat, 0) == None
  }

  lemma JoinCons(piece: string, rest: seq<string>, sep: string)
    requires rest != []
    ensures Join([piece] + rest, sep) == piece + sep + Join(rest, sep)
  {
    assert ([piece] + rest)[1..] == rest;
  }

  /** Splitting conserves the text, and cuts it at exactly the leftmost occurrences. */
  lemma {:induction false} SplitIsLeftmost(s: string, pat: string)
    requires pat != ""
    ensures Join(Split(s, pat), pat) == s && Leftmost(Split(s, pat), pat)
    decreases |s|
  {
    hide Find, LooksAt, Join;
    JoinOne(s, pat);
    match Find(s, pat, 0)
    case None => assert Split(s, pat) == [s] && [s][0..] == [s];
    case Some(i) =>
      FoundCuts(s, pat, 0);
      var rest := Split(s[i + |pat|..], pat);
      SplitIsLeftmost(s[i + |pat|..], pat);
      JoinCons(s[..i], rest, pat);
      var pieces := [s[..i]] + rest;
      forall k | 0 <= k < |pieces| - 1
        ensures Find(Join(pieces[k..], pat), pat, 0) == Some(|pieces[k]|)
      {
        if k > 0 {
          assert pieces[k..] == rest[k - 1..];
        } else {
          assert pieces[0..] == pieces;
        }
      }
  }

  lemma FoundCuts(s: string, pat: string, from: nat)
    requires Find(s, pat, from).Some?
    ensures var i := Find(s, pat, from).value;
            i + |pat| <= |s| && s == s[..i] + pat + s[i + |pat|..]
  {
    hide Find;
    var i := Find(s, pat, from).value;
    assert LooksAt(s, i, pat);
    assert s == s[..i] + s[i..i + |pat|] + s[i + |pat|..];
  }

  /** No other pieces are cut at the leftmost occurrences of the text they join to. */
  lemma {:induction false} LeftmostIsSplit(pieces: seq<string>, pat: string)
    requires pat != "" && Leftmost(pieces, pat)
    ensures Split(Join(pieces, pat), pat) == pieces
    decreases |pieces|
  {
    hide Find, LooksAt, Leftmost;
    LeftmostTail(pieces, pat);
    if |pieces| == 1 {
      assert Split(pieces[0], pat) == [pieces[0]];
    } else {
      var rest := pieces[1..];
      LeftmostIsSplit(rest, pat);
      SplitCons(pieces[0], Join(rest, pat), pat);
    }
  }

  lemma LeftmostTail(pieces: seq<string>, pat: string)
    requires pat != "" && Leftmost(pieces, pat)
    ensures |pieces| > 0
    ensures |pieces| == 1 ==> Find(pieces[0], pat, 0) == None
    ensures |pieces| > 1 ==>
              && Leftmost(pieces[1..], pat)
              && Join(pieces, pat) == pieces[0] + pat + Join(pieces[1..], pat)
              && Find(Join(pieces, pat), pat, 0) == Some(|pieces[0]|)
  {
    JoinOne(pieces[0], pat);
    hide Find, Join;
    var rest := pieces[1..];
    assert pieces[0..] == pieces;
    if |pieces| > 1 {
      JoinStep(pieces, pat);
    }
    forall k | 0 <= k < |rest| - 1
      ensures Find(Join(rest[k..], pat), pat, 0) == Some(|rest[k]|)
    {
      assert rest[k..] == pieces[k + 1..];
    }
  }

  lemma SplitCons(piece: string, after: string, pat: string)
    requires pat != "" && Find(piece + pat + after, pat, 0) == Some(|piece|)
    ensures Split(piece + pat + after, pat) == [piece] + Split(after, pat)
  {
    hide Find;
    var s := piece + pat + after;
    assert s[..|piece|] == piece && s[|piece| + |pat|..] == after;
  }

  lemma {:induction false} FindAfter(head: string, tail: string, pat: string, from: nat)
    requires pat != ""
    ensures Find(head + tail, pat, |head| + from) ==
            match Find(tail, pat, from) case None => None case Some(i) => Some(|head| + i)
    decreases |tail| - from
  {
    hide LooksAt;
    LooksAfter(head, tail, pat, from);
    if LooksAt(tail, from, pat) || from >= |tail| {
    } else {
      FindAfter(head, tail, pat, from + 1);
    }
  }

  lemma LooksAfter(head: string, tail: string, pat: string, from: nat)
    ensures LooksAt(head + tail, |head| + from, pat) == LooksAt(tail, from, pat)
    ensures pat != "" && from >= |tail| ==> !LooksAt(tail, from, pat)
  {
    if from + |pat| <= |tail| {
      assert (head + tail)[|head| + from..|head| + from + |pat|] == tail[from..from + |pat|];
    }
  }

  /**
   findAndReplaceAll: the in-place loop, which resumes after what it has put in, gives the
   pieces between leftmost occurrences joined by the replacement, and ends even when the
   replacement contains the search string.
   */
  method FindAndReplaceAll(orig: string, toSearch: string, replaceStr: string) returns (data: string)
    requires toSearch != ""
    ensures data == Join(Split(orig, toSearch), replaceStr)
  {
    hide Find, LooksAt, Join;
    data := orig;
    var pos := Find(data, toSearch, 0);
    ghost var done, rest := "", orig;
    while pos.Some?
      invariant data == done + rest
      invariant pos == Find(data, toSearch, |done|)
      invariant Join(Split(orig, toSearch), replaceStr) == done + Join(Split(rest, toSearch), replaceStr)
      decreases |rest|
    {
      FindAfter(done, rest, toSearch, 0);
      FoundCuts(rest, toSearch, 0);
      ghost var i := Find(rest, toSearch, 0).value;
      ghost var after := rest[i + |toSearch|..];
      SplitStep(rest, toSearch, replaceStr);
      assert data[..pos.value] == done + rest[..i];
      assert data[pos.value + |toSearch|..] == after;
      data := data[..pos.value] + replaceStr + data[pos.value + |toSearch|..];
      done, rest := done + rest[..i] + replaceStr, after;
      assert pos.value + |replaceStr| == |done|;
      pos := Find(data, toSearch, pos.value + |replaceStr|);
    }
    FindAfter(done, rest, toSearch, 0);
    SplitLast(rest, toSearch, replaceStr);
  }

  lemma SplitStep(s: string, pat: string, sep: string)
    requires pat != "" && Find(s, pat, 0).Some?
    ensures var i := Find(s, pat, 0).value;
            i + |pat| <= |s| && Join(Split(s, pat), sep) == s[..i] + sep + Join(Split(s[i + |pat|..], pat), sep)
  {
    hide Find, LooksAt;
    FoundCuts(s, pat, 0);
    var i := Find(s, pat, 0).value;
    JoinCons(s[..i], Split(s[i + |pat|..], pat), sep);
  }

  lemma SplitLast(s: string, pat: string, sep: string)
    requires pat != "" && Find(s, pat, 0).None?
    ensures Join(Split(s, pat), sep) == s
  {
  }
}
