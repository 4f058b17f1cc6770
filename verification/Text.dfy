/**
 Character and string helpers shared by the scanners. Reading one past the end of a
 std::string gives NUL, so At is total.
 */
module Text {
  import opened Results

  function At(s: string, i: nat): char {
    if i < |s| then s[i] else '\0'
  }

  predicate LooksAt(s: string, i: nat, pat: string) {
    i + |pat| <= |s| && s[i..i + |pat|] == pat
  }

  /** A line comment starts here. */
  predicate LineCommentAt(s: string, i: nat) {
    LooksAt(s, i, "@#") || LooksAt(s, i, "@//")
  }

  predicate IsBlank(c: char) {
    c == ' ' || c == '\t'
  }

  predicate AllBlank(s: string) {
    forall k | 0 <= k < |s| :: IsBlank(s[k])
  }

  /** std::string::find from a position: the first occurrence at or after it. */
  function Find(s: string, pat: string, from: nat): (r: Option<nat>)
    ensures r.Some? ==> from <= r.value && LooksAt(s, r.value, pat)
    ensures r.Some? ==> forall k | from <= k < r.value :: !LooksAt(s, k, pat)
    ensures r.None? ==> forall k | from <= k :: !LooksAt(s, k, pat)
    decreases |s| - from
  {
    if LooksAt(s, from, pat) then Some(from)
    else if from >= |s| then None
    else Find(s, pat, from + 1)
  }

  /** Just past the last newline, or the start. */
  function LineStart(s: string): (i: nat)
    ensures i <= |s|
    ensures i > 0 ==> s[i - 1] == '\n'
    ensures forall k | i <= k < |s| :: s[k] != '\n'
  {
    if s == [] || s[|s| - 1] == '\n' then |s| else LineStart(s[..|s| - 1])
  }

  /** What follows the last newline: the line the cursor is on. */
  function LastLine(s: string): string {
    s[LineStart(s)..]
  }

  /** The whitespace image of a string: tabs stay, everything else becomes a space. */
  function IntoWhitespace(s: string): (w: string)
    ensures |w| == |s|
    ensures AllBlank(w)
    ensures forall k | 0 <= k < |s| :: w[k] == '\t' <==> s[k] == '\t'
  {
    if s == [] then []
    else IntoWhitespace(s[..|s| - 1]) + [if s[|s| - 1] == '\t' then '\t' else ' ']
  }

  /** Lines of a text: the pieces between newlines, so always at least one. */
  function Lines(s: string): (ls: seq<string>)
    ensures |ls| > 0
    ensures forall k | 0 <= k < |ls| :: '\n' !in ls[k]
  {
    if s == [] then [[]]
    else if s[0] == '\n' then [[]] + Lines(s[1..])
    else
      var rest := Lines(s[1..]);
      [[s[0]] + rest[0]] + rest[1..]
  }

  function Join(parts: seq<string>, sep: string): string {
    if parts == [] then ""
    else if |parts| == 1 then parts[0]
    else parts[0] + sep + Join(parts[1..], sep)
  }

  lemma JoinOne(part: string, sep: string)
    ensures Join([part], sep) == part
  {
  }

  lemma JoinStep(parts: seq<string>, sep: string)
    requires |parts| > 1
    ensures Join(parts, sep) == parts[0] + sep + Join(parts[1..], sep)
  {
  }

  lemma {:induction false} JoinSnoc(parts: seq<string>, last: string, sep: string)
    ensures Join(parts + [last], sep) == if parts == [] then last else Join(parts, sep) + sep + last
  {
    if |parts| <= 1 {
      assert parts != [] ==> (parts + [last])[1..] == [last];
    } else {
      JoinSnoc(parts[1..], last, sep);
      assert (parts + [last])[1..] == parts[1..] + [last];
    }
  }

  lemma {:induction false} LinesCons(line: string, rest: string)
    requires '\n' !in line
    ensures Lines(line + "\n" + rest) == [line] + Lines(rest)
    decreases |line|
  {
    if line == "" {
      assert line + "\n" + rest == "\n" + rest;
      assert ("\n" + rest)[1..] == rest;
    } else {
      assert (line + "\n" + rest)[1..] == line[1..] + "\n" + rest;
      LinesCons(line[1..], rest);
      assert [line[0]] + line[1..] == line;
    }
  }

  lemma {:induction false} LinesOne(line: string)
    requires '\n' !in line
    ensures Lines(line) == [line]
  {
    if line == "" {
    } else {
      LinesOne(line[1..]);
      assert [line[0]] + line[1..] == line;
    }
  }

  lemma SameTail(a: string, b: string, tail: string)
    ensures a + tail == b + tail <==> a == b
  {
    if a + tail == b + tail {
      assert |a + tail| == |b + tail|;
      assert a == (a + tail)[..|a|] == (b + tail)[..|b|] == b;
    }
  }

  /** Two lists of lines put together: the last of the one goes on as the first of the other. */
  function Glue(a: seq<string>, b: seq<string>): seq<string>
    requires |a| > 0 && |b| > 0
  {
    a[..|a| - 1] + [a[|a| - 1] + b[0]] + b[1..]
  }

  lemma GlueBreak(rest: seq<string>, b: seq<string>)
    requires |rest| > 0 && |b| > 0
    ensures Glue([[]] + rest, b) == [[]] + Glue(rest, b)
  {
    assert ([[]] + rest)[..|rest|] == [[]] + rest[..|rest| - 1];
  }

  lemma GlueChar(c: char, rest: seq<string>, b: seq<string>)
    requires |rest| > 0 && |b| > 0
    ensures Glue([[c] + rest[0]] + rest[1..], b) == [[c] + Glue(rest, b)[0]] + Glue(rest, b)[1..]
  {
    if |rest| == 1 {
      assert [c] + rest[0] + b[0] == [c] + (rest[0] + b[0]);
    } else {
      var longer := [[c] + rest[0]] + rest[1..];
      assert longer[..|longer| - 1] == [[c] + rest[0]] + rest[1..|rest| - 1];
    }
  }

  lemma LinesStep(c: char, s: string)
    ensures Lines([c] + s) == if c == '\n' then [[]] + Lines(s) else [[c] + Lines(s)[0]] + Lines(s)[1..]
  {
    assert ([c] + s)[1..] == s;
  }

  lemma {:induction false} LinesConcat(a: string, b: string)
    ensures Lines(a + b) == Glue(Lines(a), Lines(b))
    decreases |a|
  {
    if a == "" {
      assert a + b == b && Lines(a) == [[]];
      assert [] + Lines(b)[0] == Lines(b)[0];
    } else {
      hide Lines, Glue;
      assert a + b == [a[0]] + (a[1..] + b) && a == [a[0]] + a[1..];
      LinesConcat(a[1..], b);
      LinesStep(a[0], a[1..]);
      LinesStep(a[0], a[1..] + b);
      if a[0] == '\n' {
        GlueBreak(Lines(a[1..]), Lines(b));
      } else {
        GlueChar(a[0], Lines(a[1..]), Lines(b));
      }
    }
  }

  lemma BlankHasNoBreak(s: string)
    requires AllBlank(s)
    ensures '\n' !in s
  {
  }

  function CountNewlines(s: string): nat {
    if s == [] then 0 else CountNewlines(s[1..]) + (if s[0] == '\n' then 1 else 0)
  }

  lemma {:induction false} CountNewlinesConcat(a: string, b: string)
    ensures CountNewlines(a + b) == CountNewlines(a) + CountNewlines(b)
  {
    if a == [] {
      assert a + b == b;
    } else {
      assert (a + b)[1..] == a[1..] + b;
      CountNewlinesConcat(a[1..], b);
    }
  }

  lemma {:induction false} IntoWhitespaceConcat(a: string, b: string)
    ensures IntoWhitespace(a + b) == IntoWhitespace(a) + IntoWhitespace(b)
  {
    forall k | 0 <= k < |a + b|
      ensures IntoWhitespace(a + b)[k] == (IntoWhitespace(a) + IntoWhitespace(b))[k]
    {
      var w := IntoWhitespace(a) + IntoWhitespace(b);
      assert IsBlank(IntoWhitespace(a + b)[k]);
      if k < |a| {
        assert w[k] == IntoWhitespace(a)[k] && (a + b)[k] == a[k];
      } else {
        assert w[k] == IntoWhitespace(b)[k - |a|] && (a + b)[k] == b[k - |a|];
      }
    }
  }

  lemma IntoWhitespaceOfBlank(s: string)
    requires AllBlank(s)
    ensures IntoWhitespace(s) == s
  {
    var w := IntoWhitespace(s);
    forall k | 0 <= k < |s|
      ensures w[k] == s[k]
    {
      assert IsBlank(w[k]) && IsBlank(s[k]);
    }
  }

  /** A text that goes on with a and then b looks like a here and like b after it. */
  lemma Follows(s: string, i: nat, a: string, b: string)
    requires i <= |s| && s[i..] == a + b
    ensures LooksAt(s, i, a)
    ensures |s| == i + |a| + |b| && s[i + |a|..] == b
    ensures a != [] ==> s[i] == a[0]
    ensures b != [] ==> s[i + |a|] == b[0]
  {
    assert |s[i..]| == |a + b|;
    assert s[i..i + |a|] == s[i..][..|a|];
    assert s[i + |a|..] == s[i..][|a|..];
    if a != [] {
      assert s[i] == s[i..][0];
    }
    if b != [] {
      assert s[i + |a|] == s[i + |a|..][0];
    }
  }

  lemma LooksAtIndex(s: string, i: nat, a: string, k: nat)
    requires LooksAt(s, i, a) && k < |a|
    ensures s[i + k] == a[k]
  {
    var piece := s[i..i + |a|];
    assert piece[k] == s[i + k];
  }

  lemma LastLineConcat(a: string, b: string)
    ensures LastLine(a + b) == if '\n' in b then LastLine(b) else LastLine(a) + b
  {
    hide LineStart;
    var s := a + b;
    var i := LineStart(s);
    if '\n' in b {
      var k := LineStart(b);
      assert k > 0 && s[|a| + k - 1] == b[k - 1];
      assert forall j | |a| + k <= j < |s| :: s[j] == b[j - |a|];
      assert i == |a| + k;
    } else {
      var k := LineStart(a);
      assert k > 0 ==> s[k - 1] == a[k - 1];
      assert forall j | k <= j < |s| :: s[j] == (if j < |a| then a[j] else b[j - |a|]);
      assert i == k;
    }
  }
}
