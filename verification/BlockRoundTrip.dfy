/** Blocks printed between braces with one indentation read back as their lines. */
module BlockRoundTrip {
  import opened Blocks
  import opened BlockText
  import opened Results
  import opened Text

  predicate AllSpace(s: string) {
    forall k | 0 <= k < |s| :: IsBlank(s[k]) || s[k] == '\n'
  }

  /** The lines as printed, each on a new line after the indentation. */
  function Printed(lines: seq<string>, indent: string): string {
    if lines == [] then "" else "\n" + indent + lines[0] + Printed(lines[1..], indent)
  }

  function Margins(lines: seq<string>, indent: string): (r: seq<string>)
    ensures |r| == |lines| && forall k | 0 <= k < |lines| :: r[k] == indent + lines[k]
  {
    seq(|lines|, k requires 0 <= k < |lines| => indent + lines[k])
  }

  /** What stands between the first character of the block and its closing brace. */
  function Body(lines: seq<string>, indent: string, outdent: string): string
    requires |lines| > 0
  {
    lines[0] + Printed(lines[1..], indent) + "\n" + outdent
  }

  predicate PlainLines(lines: seq<string>) {
    forall k | 0 <= k < |lines| :: '\n' !in lines[k]
  }

  /** Lines a printed block can start with: the first has text, and not a comment, right at its start. */
  predicate Startable(lines: seq<string>) {
    && |lines| > 0 && PlainLines(lines)
    && lines[0] != "" && !IsBlank(lines[0][0]) && !LineCommentAt(lines[0], 0)
  }

  // ---- Lines of the printed body ----

  lemma PlainStep(lines: seq<string>)
    requires |lines| > 0
    ensures Printed(lines, "") == "\n" + lines[0] + Printed(lines[1..], "")
  {
    assert "\n" + "" == "\n";
  }

  lemma {:induction false} JoinIsPrinted(lines: seq<string>)
    requires |lines| > 0
    ensures Join(lines, "\n") == lines[0] + Printed(lines[1..], "")
    decreases |lines|
  {
    if |lines| > 1 {
      JoinIsPrinted(lines[1..]);
      PlainStep(lines[1..]);
      JoinStep(lines, "\n");
      hide Join, Printed;
      Regroup(lines[0], lines[1], Printed(lines[1..][1..], ""));
    } else {
      assert lines[0] + "" == lines[0];
    }
  }

  lemma Regroup(a: string, b: string, c: string)
    ensures a + "\n" + (b + c) == a + ("\n" + b + c)
  {
  }

  lemma {:induction false} LinesOfBody(first: string, lines: seq<string>, indent: string, outdent: string)
    requires '\n' !in first && PlainLines(lines) && AllBlank(indent) && AllBlank(outdent)
    ensures Lines(first + Printed(lines, indent) + "\n" + outdent) == [first] + Margins(lines, indent) + [outdent]
    decreases |lines|
  {
    hide Lines, Printed;
    BlankHasNoBreak(indent);
    BlankHasNoBreak(outdent);
    PrintedCons(lines, indent);
    if lines == [] {
      assert first + "" + "\n" + outdent == first + "\n" + outdent;
      LinesCons(first, outdent);
      LinesOne(outdent);
      assert [first] + Margins([], indent) + [outdent] == [first] + [outdent];
    } else {
      var next, rest := indent + lines[0], lines[1..];
      LinesOfBody(next, rest, indent, outdent);
      BodyCons(first, indent, lines[0], Printed(rest, indent), outdent);
      LinesCons(first, next + Printed(rest, indent) + "\n" + outdent);
      assert [first] + Margins(lines, indent) + [outdent] == [first] + ([next] + Margins(rest, indent) + [outdent]);
    }
  }

  lemma PrintedCons(lines: seq<string>, indent: string)
    ensures Printed(lines, indent) == if lines == [] then "" else "\n" + indent + lines[0] + Printed(lines[1..], indent)
  {
  }

  lemma BodyCons(first: string, indent: string, line: string, printed: string, outdent: string)
    ensures first + ("\n" + indent + line + printed) + "\n" + outdent ==
              first + "\n" + (indent + line + printed + "\n" + outdent)
  {
  }

  lemma {:induction false} DedentPrinted(lines: seq<string>, indent: string, outdent: string)
    requires outdent <= indent
    ensures Dedent(Margins(lines, indent) + [outdent], indent) ==
            Some(Printed(lines, "") + if outdent == indent then "\n" else "")
  {
    if lines == [] {
      assert Margins(lines, indent) + [outdent] == [outdent];
      DedentOne(outdent, indent);
      assert Printed(lines, "") == "" && "" + "" == "" && "" + "\n" == "\n" + "" == "\n";
      if outdent == indent {
        assert outdent[|indent|..] == "";
      }
    } else {
      hide Dedent, Printed;
      DedentPrinted(lines[1..], indent, outdent);
      PlainStep(lines);
      var more := Margins(lines[1..], indent) + [outdent];
      assert Margins(lines, indent) + [outdent] == [indent + lines[0]] + more;
      DedentCons(indent + lines[0], more, indent);
      assert (indent + lines[0])[|indent|..] == lines[0] && indent <= indent + lines[0];
      var end := if outdent == indent then "\n" else "";
      Assoc("\n" + lines[0], Printed(lines[1..], ""), end);
    }
  }

  lemma Assoc(a: string, b: string, c: string)
    ensures a + (b + c) == a + b + c
  {
  }

  // ---- Braces of the printed body ----

  lemma {:induction false} RunConcat(a: string, b: string, depth: nat)
    requires depth >= 1
    ensures Run(a, depth).Some? ==> Run(a, depth).value >= 1
    ensures Run(a + b, depth) == match Run(a, depth) case None => None case Some(next) => Run(b, next)
    decreases |a|
  {
    if a == "" {
      assert a + b == b;
    } else {
      assert (a + b)[1..] == a[1..] + b;
      if a[0] == '{' {
        RunConcat(a[1..], b, depth + 1);
      } else if a[0] == '}' {
        if depth > 1 {
          RunConcat(a[1..], b, depth - 1);
        }
      } else {
        RunConcat(a[1..], b, depth);
      }
    }
  }

  lemma {:induction false} RunSpace(s: string, depth: nat)
    requires depth >= 1 && AllSpace(s)
    ensures Run(s, depth) == Some(depth)
    decreases |s|
  {
    if s == "" {
    } else {
      RunSpace(s[1..], depth);
    }
  }

  /** Indentation does not change the braces. */
  lemma {:induction false} RunPrinted(lines: seq<string>, indent: string, depth: nat)
    requires depth >= 1 && AllBlank(indent)
    ensures Run(Printed(lines, indent), depth) == Run(Printed(lines, ""), depth)
    decreases |lines|
  {
    hide Run;
    if lines == [] {
    } else {
      var rest := lines[1..];
      RunStep("\n" + indent, lines[0], Printed(rest, indent), depth);
      RunStep("\n" + "", lines[0], Printed(rest, ""), depth);
      RunConcat(lines[0], "", depth);
      if Run(lines[0], depth).Some? {
        RunPrinted(rest, indent, Run(lines[0], depth).value);
      }
    }
  }

  lemma RunStep(space: string, line: string, rest: string, depth: nat)
    requires depth >= 1 && AllSpace(space)
    ensures Run(line, depth).Some? ==> Run(line, depth).value >= 1
    ensures Run(space + line + rest, depth) ==
            match Run(line, depth) case None => None case Some(next) => Run(rest, next)
  {
    hide Run;
    RunSpace(space, depth);
    RunConcat(line, rest, depth);
    assert space + line + rest == space + (line + rest);
    RunConcat(space, line + rest, depth);
  }

  lemma BalancedBody(lines: seq<string>, indent: string, outdent: string)
    requires |lines| > 0 && AllBlank(indent) && AllBlank(outdent)
    ensures Balanced(Body(lines, indent, outdent)) <==> Balanced(Join(lines, "\n"))
  {
    hide Run;
    JoinIsPrinted(lines);
    RunConcat(lines[0], Printed(lines[1..], ""), 1);
    var end := "\n" + outdent;
    assert Body(lines, indent, outdent) == lines[0] + Printed(lines[1..], indent) + end;
    RunConcat(lines[0], Printed(lines[1..], indent), 1);
    RunConcat(lines[0] + Printed(lines[1..], indent), end, 1);
    if Run(lines[0], 1).Some? {
      RunPrinted(lines[1..], indent, Run(lines[0], 1).value);
    }
    var run := Run(lines[0] + Printed(lines[1..], indent), 1);
    if run.Some? {
      RunSpace(end, run.value);
    }
  }

  // ---- The gaps ----

  /** The indentation collected over blanks and newlines. */
  function LeadAfter(space: string, lead: string): string
    decreases |space|
  {
    if space == "" then lead
    else if space[0] == '\n' then LeadAfter(space[1..], "")
    else LeadAfter(space[1..], lead + [space[0]])
  }

  lemma {:induction false} SkipSpaces(s: string, i: nat, space: string, lead: string)
    requires AllSpace(space) && LooksAt(s, i, space)
    ensures SkipGap(s, i, lead) == SkipGap(s, i + |space|, LeadAfter(space, lead))
    decreases |space|
  {
    if space == "" {
    } else {
      LooksAtIndex(s, i, space, 0);
      assert s[i + 1..i + |space|] == s[i..i + |space|][1..];
      SkipSpaces(s, i + 1, space[1..], if space[0] == '\n' then "" else lead + [space[0]]);
    }
  }

  lemma {:induction false} LeadAfterNewline(space: string, indent: string, lead: string)
    requires AllBlank(indent)
    ensures LeadAfter(space + "\n" + indent, lead) == indent
    decreases |space|
  {
    var whole := space + "\n" + indent;
    if space == "" {
      assert whole[1..] == indent;
      LeadAfterBlank(indent, "");
      assert "" + indent == indent;
    } else {
      assert whole[1..] == space[1..] + "\n" + indent;
      LeadAfterNewline(space[1..], indent, if space[0] == '\n' then "" else lead + [space[0]]);
    }
  }

  lemma {:induction false} LeadAfterBlank(blank: string, lead: string)
    requires AllBlank(blank)
    ensures LeadAfter(blank, lead) == lead + blank
    decreases |blank|
  {
    if blank == "" {
    } else {
      assert IsBlank(blank[0]);
      LeadAfterBlank(blank[1..], lead + [blank[0]]);
      assert lead + [blank[0]] + blank[1..] == lead + blank;
    }
  }

  // ---- The round trip ----

  /**
   A printed block: from i a gap, the opening brace, a gap that ends the line, the lines with
   one indentation, and the closing brace on a line of its own.
   */
  predicate PrintedAt(s: string, i: nat, gap: string, inner: string, indent: string, lines: seq<string>,
                      outdent: string, rest: string) {
    && |lines| > 0 && i <= |s| && AllSpace(gap) && AllSpace(inner) && AllBlank(indent) && AllBlank(outdent)
    && s[i..] == gap + ("{" + (inner + "\n" + indent + (Body(lines, indent, outdent) + ("}" + rest))))
  }

  /** Where the parts of a printed block are. */
  lemma PrintedParts(s: string, i: nat, gap: string, inner: string, indent: string, lines: seq<string>,
                     outdent: string, rest: string)
    requires PrintedAt(s, i, gap, inner, indent, lines, outdent, rest)
    ensures var open := i + |gap|;
            var start := open + 1 + |inner| + 1 + |indent|;
            var close := start + |Body(lines, indent, outdent)|;
            && LooksAt(s, i, gap) && open < |s| && s[open] == '{'
            && LooksAt(s, open + 1, inner + "\n" + indent)
            && close < |s| && s[start..close] == Body(lines, indent, outdent) && s[close] == '}'
            && s[close + 1..] == rest
  {
    hide Body, LooksAt;
    var body := Body(lines, indent, outdent);
    var space := inner + "\n" + indent;
    FrontParts(s, i, gap, space, body + ("}" + rest));
    BackParts(s, i + |gap| + 1 + |space|, body, rest);
    assert |space| == |inner| + 1 + |indent|;
  }

  lemma FrontParts(s: string, i: nat, gap: string, space: string, tail: string)
    requires i <= |s| && s[i..] == gap + ("{" + (space + tail))
    ensures var open := i + |gap|;
            && LooksAt(s, i, gap) && open < |s| && s[open] == '{' && LooksAt(s, open + 1, space)
            && open + 1 + |space| <= |s| && s[open + 1 + |space|..] == tail
  {
    hide LooksAt;
    var open := i + |gap|;
    Follows(s, i, gap, "{" + (space + tail));
    Follows(s, open, "{", space + tail);
    Follows(s, open + 1, space, tail);
  }

  lemma BackParts(s: string, start: nat, body: string, rest: string)
    requires start <= |s| && s[start..] == body + ("}" + rest)
    ensures var close := start + |body|;
            close < |s| && s[start..close] == body && s[close] == '}' && s[close + 1..] == rest
  {
    Follows(s, start, body, "}" + rest);
    Follows(s, start + |body|, "}", rest);
  }

  lemma StartIsText(s: string, start: nat, lines: seq<string>, indent: string, outdent: string)
    requires Startable(lines)
    requires start + |Body(lines, indent, outdent)| <= |s|
    requires s[start..start + |Body(lines, indent, outdent)|] == Body(lines, indent, outdent)
    ensures start < |s| && !InGap(s, start)
  {
    hide Printed;
    var body := Body(lines, indent, outdent);
    assert forall k | 0 <= k < |lines[0]| :: s[start + k] == body[k] == lines[0][k];
    var next := Printed(lines[1..], indent) + "\n" + outdent;
    assert body == lines[0] + next;
    assert next[0] == '\n' by { PrintedStarts(lines[1..], indent, outdent); }
    assert s[start + |lines[0]|] == body[|lines[0]|] == '\n';
    NoCommentInContext(s, start, lines[0]);
  }

  lemma PrintedStarts(lines: seq<string>, indent: string, outdent: string)
    ensures (Printed(lines, indent) + "\n" + outdent)[0] == '\n'
  {
  }

  lemma NoCommentInContext(s: string, start: nat, line: string)
    requires line != "" && line[0] != '\n' && '\n' !in line && start + |line| < |s| && s[start + |line|] == '\n'
    requires forall k | 0 <= k < |line| :: s[start + k] == line[k]
    requires !LineCommentAt(line, 0)
    ensures !LineCommentAt(s, start)
  {
    CommentStarts(s, start);
    CommentStarts(line, 0);
    assert s[start] == line[0];
    assert |line| > 1 ==> s[start + 1] == line[1];
    assert |line| > 2 ==> s[start + 2] == line[2];
  }

  /** A comment by its characters. */
  lemma CommentStarts(s: string, i: nat)
    ensures LineCommentAt(s, i) <==>
              || (i + 1 < |s| && s[i] == '@' && s[i + 1] == '#')
              || (i + 2 < |s| && s[i] == '@' && s[i + 1] == '/' && s[i + 2] == '/')
  {
    assert i + 2 <= |s| ==> s[i..i + 2] == [s[i], s[i + 1]];
    assert i + 3 <= |s| ==> s[i..i + 3] == [s[i], s[i + 1], s[i + 2]];
  }

  /** A block whose two gaps lead to a brace and to its text. */
  lemma ReadBraced(s: string, i: nat, gap: Gap, inner: Gap)
    requires SkipGap(s, i, "") == Ok(gap) && gap.pos + 1 < |s| && s[gap.pos] == '{'
    requires SkipGap(s, gap.pos + 1, "") == Ok(inner) && inner.pos <= |s|
    ensures ReadBlockSpec(s, i) ==
            MakeBlock(ReadLines(s, inner.pos, inner.lead, true), inner.pos, true, inner.comments)
  {
    hide SkipGap, ReadLines;
  }

  lemma NoGap(s: string, i: nat, lead: string)
    requires i < |s| && !InGap(s, i)
    ensures SkipGap(s, i, lead) == Ok(Gap(i, lead, 0))
  {
    hide Find, LineCommentAt;
  }

  /** Both gaps of a printed block are skipped, and its indentation is found. */
  lemma GapsAreSkipped(s: string, i: nat, gap: string, inner: string, indent: string, lines: seq<string>,
                       outdent: string, rest: string)
    requires PrintedAt(s, i, gap, inner, indent, lines, outdent, rest) && Startable(lines)
    ensures var start := i + |gap| + 1 + |inner| + 1 + |indent|;
            start <= |s| && ReadBlockSpec(s, i) == MakeBlock(ReadLines(s, start, indent, true), start, true, 0)
  {
    hide Body, AllSpace, AllBlank, ReadLines, LineCommentAt, LooksAt, LeadAfter, Startable, SkipGap, ReadBlockSpec;
    PrintedParts(s, i, gap, inner, indent, lines, outdent, rest);
    var open := i + |gap|;
    var space := inner + "\n" + indent;
    var start := open + 1 + |space|;
    SkipSpaces(s, i, gap, "");
    BraceIsNoComment(s, open);
    SpaceConcat(inner, indent);
    SkipSpaces(s, open + 1, space, "");
    LeadAfterNewline(inner, indent, "");
    StartIsText(s, start, lines, indent, outdent);
    NoGap(s, open, LeadAfter(gap, ""));
    NoGap(s, start, indent);
    ReadBraced(s, i, Gap(open, LeadAfter(gap, ""), 0), Gap(start, indent, 0));
  }

  lemma BraceIsNoComment(s: string, i: nat)
    requires i < |s| && s[i] == '{'
    ensures !LineCommentAt(s, i)
  {
    CommentStarts(s, i);
  }

  lemma SpaceConcat(inner: string, indent: string)
    requires AllSpace(inner) && AllBlank(indent)
    ensures AllSpace(inner + "\n" + indent)
  {
  }

  /**
   The block round trip. Brace-balanced lines, the first starting with text, printed between
   braces with one indentation: read_block gives them back joined by newlines and stops just
   past the matching brace. Only when the closing brace is as deep as the lines, as with an
   empty indentation, does it add a newline at the end.
   */
  lemma PrintedBlockReadsBack(s: string, i: nat, gap: string, inner: string, indent: string, lines: seq<string>,
                              outdent: string, rest: string)
    requires PrintedAt(s, i, gap, inner, indent, lines, outdent, rest)
    requires Startable(lines) && Balanced(Join(lines, "\n")) && outdent <= indent
    ensures var start := i + |gap| + 1 + |inner| + 1 + |indent|;
            var text := Join(lines, "\n") + if outdent == indent then "\n" else "";
            |rest| <= |s| && ReadBlockSpec(s, i) == Ok(Block(text, start, |s| - |rest|, true, 0))
  {
    hide Body, AllSpace, AllBlank, ReadLines, LineCommentAt, LooksAt, LeadAfter, Close, Run, Lines, Dedent, SkipGap,
         Join, Printed, ReadBlockSpec;
    PrintedParts(s, i, gap, inner, indent, lines, outdent, rest);
    GapsAreSkipped(s, i, gap, inner, indent, lines, outdent, rest);
    var start := i + |gap| + 1 + |inner| + 1 + |indent|;
    var close := start + |Body(lines, indent, outdent)|;
    BalancedBody(lines, indent, outdent);
    CloseIff(s, start, 1, close);
    BracedBlockIs(s, start, indent);
    BodyLines(lines, indent, outdent);
  }

  /** The lines of the body, and what is left of them without indentation. */
  lemma BodyLines(lines: seq<string>, indent: string, outdent: string)
    requires |lines| > 0 && PlainLines(lines) && AllBlank(indent) && AllBlank(outdent) && outdent <= indent
    ensures var parts := Lines(Body(lines, indent, outdent));
            && parts[0] == lines[0]
            && LaterIndented(parts, indent)
            && Dedent(parts[1..], indent).Some?
            && parts[0] + Dedent(parts[1..], indent).value == Join(lines, "\n") + if outdent == indent then "\n" else ""
  {
    hide Lines, Dedent, Join, Printed, AllBlank;
    LinesOfBody(lines[0], lines[1..], indent, outdent);
    var parts := Lines(Body(lines, indent, outdent));
    assert parts[1..] == Margins(lines[1..], indent) + [outdent];
    DedentPrinted(lines[1..], indent, outdent);
    DedentIff(parts[1..], indent);
    assert forall k | 0 < k < |parts| :: parts[k] == parts[1..][k - 1];
    JoinIsPrinted(lines);
  }

  // ---- A comment before the first line ----

  predicate CommentMark(mark: string) {
    mark == "@#" || mark == "@//"
  }

  lemma RemarkChars(s: string, i: nat, mark: string, comment: string)
    requires CommentMark(mark) && '\n' !in comment && LooksAt(s, i, mark + comment + "\n")
    ensures var end := i + |mark| + |comment|;
            && LineCommentAt(s, i) && i <= end < |s| && s[i] == '@' && s[end] == '\n'
            && forall k | i <= k < end :: s[k] != '\n'
  {
    var text := mark + comment + "\n";
    assert forall k | 0 <= k < |text| :: s[i + k] == s[i..i + |text|][k] == text[k];
    assert s[i..i + |mark|] == s[i..i + |text|][..|mark|] == text[..|mark|] == mark;
    assert '\n' !in mark + comment;
    forall k | i <= k < i + |mark| + |comment|
      ensures s[k] != '\n'
    {
      assert s[k] == text[k - i] == (mark + comment)[k - i];
    }
  }

  lemma SkipComment(s: string, i: nat, mark: string, comment: string, lead: string)
    requires CommentMark(mark) && '\n' !in comment && LooksAt(s, i, mark + comment + "\n")
    ensures SkipGap(s, i, lead) == AddComments(SkipGap(s, i + |mark| + |comment| + 1, lead), 1)
  {
    hide Find, LooksAt, LineCommentAt, CommentMark;
    RemarkChars(s, i, mark, comment);
    NewlineAt(s, i, i + |mark| + |comment|);
  }

  lemma NewlineAt(s: string, i: nat, end: nat)
    requires i <= end < |s| && s[end] == '\n' && forall k | i <= k < end :: s[k] != '\n'
    ensures Find(s, "\n", i) == Some(end)
  {
    hide Find;
    assert s[end..end + 1] == "\n" && LooksAt(s, end, "\n");
    forall k | i <= k < end
      ensures !LooksAt(s, k, "\n")
    {
      assert s[k..k + 1][0] == s[k];
    }
  }

  /** A block whose lines are printed after a comment line with the same indentation. */
  predicate CommentedAt(s: string, i: nat, mark: string, comment: string, indent: string, lines: seq<string>,
                        outdent: string, rest: string) {
    && |lines| > 0 && i <= |s| && CommentMark(mark) && '\n' !in comment && AllBlank(indent) && AllBlank(outdent)
    && s[i..] ==
       "" + ("{" + ("\n" + indent + (mark + comment + "\n" + (indent + (Body(lines, indent, outdent) + ("}" + rest))))))
  }

  lemma CommentedParts(s: string, i: nat, space: string, remark: string, indent: string, body: string, rest: string)
    requires i <= |s| && s[i..] == "" + ("{" + (space + (remark + (indent + (body + ("}" + rest))))))
    ensures var at := i + 1 + |space|;
            var start := at + |remark| + |indent|;
            && i < |s| && s[i] == '{' && LooksAt(s, i + 1, space) && LooksAt(s, at, remark)
            && LooksAt(s, at + |remark|, indent)
            && start + |body| < |s| && s[start..start + |body|] == body && s[start + |body|] == '}'
            && |s| == start + |body| + 1 + |rest|
  {
    hide LooksAt;
    FrontParts(s, i, "", space, remark + (indent + (body + ("}" + rest))));
    var at := i + 1 + |space|;
    MiddleParts(s, at, remark, indent, body + ("}" + rest));
    BackParts(s, at + |remark| + |indent|, body, rest);
  }

  lemma MiddleParts(s: string, at: nat, remark: string, indent: string, tail: string)
    requires at <= |s| && s[at..] == remark + (indent + tail)
    ensures LooksAt(s, at, remark) && LooksAt(s, at + |remark|, indent)
    ensures at + |remark| + |indent| <= |s| && s[at + |remark| + |indent|..] == tail
  {
    hide LooksAt;
    Follows(s, at, remark, indent + tail);
    Follows(s, at + |remark|, indent, tail);
  }

  /** Over a line break, a comment line and the next line's indentation both indentations are collected. */
  lemma SkipCommentLine(s: string, i: nat, mark: string, comment: string, indent: string)
    requires CommentMark(mark) && '\n' !in comment && AllBlank(indent)
    requires var space, remark := "\n" + indent, mark + comment + "\n";
             LooksAt(s, i, space) && LooksAt(s, i + |space|, remark) && LooksAt(s, i + |space| + |remark|, indent)
    ensures SkipGap(s, i, "") ==
            AddComments(SkipGap(s, i + 1 + |indent| + |mark| + |comment| + 1 + |indent|, indent + indent), 1)
  {
    hide AllSpace, AllBlank, LooksAt, LeadAfter, SkipGap;
    var space, remark := "\n" + indent, mark + comment + "\n";
    SpaceConcat("", indent) by { EmptyIsSpace(); }
    assert "" + "\n" + indent == space;
    SkipSpaces(s, i, space, "");
    LeadAfterNewline("", indent, "");
    SkipComment(s, i + |space|, mark, comment, indent);
    BlankIsSpace(indent);
    SkipSpaces(s, i + |space| + |remark|, indent, indent);
    LeadAfterBlank(indent, indent);
  }

  /** Where the first line of such a block starts. */
  function CommentedStart(i: nat, mark: string, comment: string, indent: string): nat {
    i + 1 + 1 + |indent| + |mark| + |comment| + 1 + |indent|
  }

  lemma CommentedGap(s: string, i: nat, mark: string, comment: string, indent: string, lines: seq<string>,
                     outdent: string, rest: string)
    requires CommentedAt(s, i, mark, comment, indent, lines, outdent, rest) && Startable(lines)
    ensures var start := CommentedStart(i, mark, comment, indent);
            var close := start + |Body(lines, indent, outdent)|;
            && close < |s| && s[start..close] == Body(lines, indent, outdent) && s[close] == '}'
            && |s| == close + 1 + |rest|
            && ReadBlockSpec(s, i) == MakeBlock(ReadLines(s, start, indent + indent, true), start, true, 1)
  {
    hide Body, AllSpace, AllBlank, ReadLines, LineCommentAt, LooksAt, LeadAfter, Startable, SkipGap, ReadBlockSpec;
    CommentedParts(s, i, "\n" + indent, mark + comment + "\n", indent, Body(lines, indent, outdent), rest);
    BraceIsNoComment(s, i);
    SkipCommentLine(s, i + 1, mark, comment, indent);
    var start := CommentedStart(i, mark, comment, indent);
    StartIsText(s, start, lines, indent, outdent);
    NoGap(s, i, "");
    NoGap(s, start, indent + indent);
    ReadBraced(s, i, Gap(i, "", 0), Gap(start, indent + indent, 1));
  }

  lemma EmptyIsSpace()
    ensures AllSpace("")
  {
  }

  lemma BlankIsSpace(s: string)
    requires AllBlank(s)
    ensures AllSpace(s)
  {
  }

  lemma IndentedTwice(line: string, indent: string)
    ensures Indented(indent + line, indent + indent) <==> Indented(line, indent)
  {
    assert (indent + indent)[..|indent|] == indent && (indent + indent)[|indent|..] == indent;
    assert (indent + line)[..|indent|] == indent && (indent + line)[|indent|..] == line;
    if indent <= line {
      assert (indent + line)[..|indent + indent|] == indent + line[..|indent|] == indent + indent;
    }
    if indent + indent <= indent + line {
      assert line[..|indent|] == (indent + line)[|indent|..][..|indent|] == indent;
    }
    if line <= indent {
      assert (indent + indent)[..|indent + line|] == indent + indent[..|line|] == indent + line;
    }
    if indent + line <= indent + indent {
      assert indent[..|line|] == (indent + indent)[|indent|..][..|line|] == line;
    }
  }

  /** A line with the indentation taken off once more, where it starts with it. */
  function Strip(line: string, indent: string): string {
    if indent <= line then line[|indent|..] else ""
  }

  function StripAll(lines: seq<string>, indent: string): (r: seq<string>)
    ensures |r| == |lines| && forall k | 0 <= k < |lines| :: r[k] == Strip(lines[k], indent)
  {
    seq(|lines|, k requires 0 <= k < |lines| => Strip(lines[k], indent))
  }

  /** The lines after the first stripped. */
  function LaterStripped(lines: seq<string>, indent: string): seq<string>
    requires |lines| > 0
  {
    [lines[0]] + StripAll(lines[1..], indent)
  }

  /**
   The end of a comment does not restart the indentation. So brace-balanced lines printed with
   one indentation after a comment line with the same indentation are read exactly when each
   line after the first is itself indented once more, or no more than a part of the
   indentation; and then every later line comes back with that taken off.
   */
  lemma CommentFirstReadsIff(s: string, i: nat, mark: string, comment: string, indent: string, lines: seq<string>,
                             outdent: string, rest: string)
    requires CommentedAt(s, i, mark, comment, indent, lines, outdent, rest)
    requires Startable(lines) && Balanced(Join(lines, "\n")) && outdent <= indent
    ensures ReadBlockSpec(s, i).Ok? <==> LaterIndented(lines, indent)
    ensures LaterIndented(lines, indent) ==>
              && |rest| <= |s|
              && ReadBlockSpec(s, i) == Ok(Block(Join(LaterStripped(lines, indent), "\n")
                  + (if indent == "" then "\n" else ""),
                                                 CommentedStart(i, mark, comment, indent), |s| - |rest|, true, 1))
  {
    hide Body, AllSpace, AllBlank, ReadLines, LineCommentAt, LeadAfter, Close, Run, Lines, Dedent, SkipGap, Join,
         Printed, LaterIndented, ReadBlockSpec, LaterStripped, CommentMark;
    CommentedGap(s, i, mark, comment, indent, lines, outdent, rest);
    var start := CommentedStart(i, mark, comment, indent);
    var close := start + |Body(lines, indent, outdent)|;
    BalancedBody(lines, indent, outdent);
    CloseIff(s, start, 1, close);
    TwiceBlank(indent);
    BracedBlockIs(s, start, indent + indent);
    BodyLinesTwice(lines, indent, outdent);
  }

  /**
   When such a block reads back. Its text is that of the lines exactly when there is no
   indentation or every line after the first is empty; otherwise it is an error, or, when the
   later lines are indented once more, a block with that silently taken off.
   */
  lemma CommentFirstReadsBackIff(s: string, i: nat, mark: string, comment: string, indent: string, lines: seq<string>,
                                 outdent: string, rest: string)
    requires CommentedAt(s, i, mark, comment, indent, lines, outdent, rest)
    requires Startable(lines) && Balanced(Join(lines, "\n")) && outdent <= indent
    ensures var r := ReadBlockSpec(s, i);
            r.Ok? && r.value.text == Join(lines, "\n") + (if indent == "" then "\n" else "") <==>
              indent == "" || forall k | 0 < k < |lines| :: lines[k] == ""
  {
    hide ReadBlockSpec, CommentedAt, Balanced, Body, Join, Startable;
    CommentFirstReadsIff(s, i, mark, comment, indent, lines, outdent, rest);
    SomeLine(lines);
    var end := if indent == "" then "\n" else "";
    StrippedIsShorter(lines, indent);
    SameTail(Join(LaterStripped(lines, indent), "\n"), Join(lines, "\n"), end);
    forall k | 0 < k < |lines| && (indent == "" || lines[k] == "")
      ensures Indented(lines[k], indent)
    {
    }
  }

  lemma {:induction false} NoBraces(s: string)
    requires '{' !in s && '}' !in s
    ensures Run(s, 1) == Some(1)
  {
    if s == "" {
    } else {
      NoBraces(s[1..]);
    }
  }

  lemma TwoLines(second: string)
    requires second == "b" || second == " b"
    ensures Startable(["a", second]) && Join(["a", second], "\n") == "a\n" + second
    ensures Balanced("a\n" + second)
  {
    assert ["a", second][1..] == [second];
    assert Join([second], "\n") == second;
    NoBraces("a\n" + second);
  }

  /** Lines "a" and "b", indented by a space after a comment line, are an error. */
  lemma CommentFirstFails()
    ensures ReadBlockSpec("{\n @#\n a\n b\n}", 0).Err?
  {
    var s := "{\n @#\n a\n b\n}";
    var lines := ["a", "b"];
    TwoLines("b");
    assert lines[1..] == ["b"] && ["b"][1..] == [];
    assert Body(lines, " ", "") == "a" + ("\n" + " " + "b" + "") + "\n" + "";
    assert s[0..] == s;
    assert CommentedAt(s, 0, "@#", "", " ", lines, "", "");
    assert lines[1][0] != " "[0];
    assert !Indented(lines[1], " ");
    hide ReadBlockSpec, CommentedAt, Startable, Balanced, Join;
    CommentFirstReadsIff(s, 0, "@#", "", " ", lines, "", "");
  }

  /** Lines "a" and " b" are read, as "a" and "b". */
  lemma CommentFirstAlters()
    ensures ReadBlockSpec("{\n @#\n a\n  b\n}", 0).Ok?
    ensures ReadBlockSpec("{\n @#\n a\n  b\n}", 0).value.text == "a\nb"
  {
    var s := "{\n @#\n a\n  b\n}";
    var lines := ["a", " b"];
    TwoLines(" b");
    assert lines[1..] == [" b"] && [" b"][1..] == [];
    assert Body(lines, " ", "") == "a" + ("\n" + " " + " b" + "") + "\n" + "";
    assert s[0..] == s;
    assert CommentedAt(s, 0, "@#", "", " ", lines, "", "");
    assert LaterIndented(lines, " ");
    assert LaterStripped(lines, " ") == ["a", "b"];
    TwoLines("b");
    hide ReadBlockSpec, CommentedAt, Startable, Balanced, Join;
    CommentFirstReadsIff(s, 0, "@#", "", " ", lines, "", "");
  }

  lemma SomeLine(lines: seq<string>)
    requires Startable(lines)
    ensures |lines| > 0
  {
  }

  lemma StripLength(line: string, indent: string)
    ensures |Strip(line, indent)| <= |line|
    ensures |Strip(line, indent)| == |line| <==> indent == "" || line == ""
  {
  }

  lemma {:induction false} PrintedStripped(lines: seq<string>, indent: string)
    ensures |Printed(StripAll(lines, indent), "")| <= |Printed(lines, "")|
    ensures |Printed(StripAll(lines, indent), "")| == |Printed(lines, "")| <==>
              indent == "" || forall k | 0 <= k < |lines| :: lines[k] == ""
    decreases |lines|
  {
    if lines == [] {
    } else {
      StripLength(lines[0], indent);
      PrintedStripped(lines[1..], indent);
      assert StripAll(lines, indent)[1..] == StripAll(lines[1..], indent);
      assert forall k | 0 < k < |lines| :: lines[k] == lines[1..][k - 1];
    }
  }

  lemma StrippedIsShorter(lines: seq<string>, indent: string)
    requires |lines| > 0
    ensures Join(LaterStripped(lines, indent), "\n") == Join(lines, "\n") <==>
              indent == "" || forall k | 0 < k < |lines| :: lines[k] == ""
  {
    var stripped := LaterStripped(lines, indent);
    assert stripped[0] == lines[0] && stripped[1..] == StripAll(lines[1..], indent);
    JoinIsPrinted(lines);
    JoinIsPrinted(stripped);
    PrintedStripped(lines[1..], indent);
    hide Join, Printed, Strip;
    if indent == "" || forall k | 0 < k < |lines| :: lines[k] == "" {
      forall k | 0 <= k < |lines|
        ensures stripped[k] == lines[k]
      {
        if k > 0 {
          StripsNothing(lines[k], indent);
        }
      }
      assert stripped == lines;
    } else {
      assert forall k | 0 < k < |lines| :: lines[k] == lines[1..][k - 1];
    }
  }

  lemma StripsNothing(line: string, indent: string)
    requires indent == "" || line == ""
    ensures Strip(line, indent) == line
  {
  }

  lemma TwiceBlank(indent: string)
    requires AllBlank(indent)
    ensures AllBlank(indent + indent)
  {
  }

  lemma BodyLinesTwice(lines: seq<string>, indent: string, outdent: string)
    requires |lines| > 0 && PlainLines(lines) && AllBlank(indent) && AllBlank(outdent) && outdent <= indent
    ensures var parts := Lines(Body(lines, indent, outdent));
            && (LaterIndented(parts, indent + indent) <==> LaterIndented(lines, indent))
            && parts[0] == lines[0]
            && (LaterIndented(lines, indent) ==>
                  Dedent(parts[1..], indent + indent).Some? &&
                  parts[0] + Dedent(parts[1..], indent + indent).value ==
                  Join(LaterStripped(lines, indent), "\n") + if indent == "" then "\n" else "")
  {
    hide Lines, Printed, AllBlank, Indented, Dedent, Join, LaterStripped;
    LinesOfBody(lines[0], lines[1..], indent, outdent);
    var parts := Lines(Body(lines, indent, outdent));
    assert |parts| == |lines| + 1 && parts[|lines|] == outdent;
    OutdentFits(outdent, indent);
    forall k | 0 < k < |lines|
      ensures Indented(parts[k], indent + indent) <==> Indented(lines[k], indent)
    {
      assert parts[k] == Margins(lines[1..], indent)[k - 1] == indent + lines[k];
      IndentedTwice(lines[k], indent);
    }
    if LaterIndented(lines, indent) {
      assert parts[1..] == Margins(lines[1..], indent) + [outdent];
      DedentTwice(lines[1..], indent, outdent);
      StrippedPrinted(lines, indent);
    }
  }

  lemma StrippedPrinted(lines: seq<string>, indent: string)
    requires |lines| > 0
    ensures Join(LaterStripped(lines, indent), "\n") == lines[0] + Printed(StripAll(lines[1..], indent), "")
  {
    var stripped := LaterStripped(lines, indent);
    assert stripped[0] == lines[0] && stripped[1..] == StripAll(lines[1..], indent);
    JoinIsPrinted(stripped);
  }

  /** A printed line, with the indentation taken off twice. */
  lemma MarginTwice(line: string, indent: string)
    requires Indented(line, indent)
    ensures indent + indent <= indent + line ==> (indent + line)[|indent + indent|..] == Strip(line, indent)
    ensures !(indent + indent <= indent + line) ==> indent + line <= indent + indent && Strip(line, indent) == ""
  {
    if indent <= line {
      assert (indent + line)[..|indent + indent|] == indent + line[..|indent|] == indent + indent;
      assert (indent + line)[|indent + indent|..] == line[|indent|..];
    } else {
      assert |line| < |indent|;
      assert (indent + indent)[..|indent + line|] == indent + indent[..|line|] == indent + line;
    }
  }

  lemma DedentOutdent(indent: string, outdent: string)
    requires outdent <= indent
    ensures Dedent([outdent], indent + indent) == Some(if indent == "" then "\n" else "")
  {
    DedentOne(outdent, indent + indent);
    OutdentFits(outdent, indent);
    if indent == "" {
      assert outdent == "" && "\n" + "" == "\n";
    } else {
      assert |indent + indent| > |outdent|;
    }
  }

  lemma DedentLineTwice(line: string, indent: string, more: seq<string>)
    requires Indented(line, indent) && more != [] && Dedent(more, indent + indent).Some?
    ensures Dedent([indent + line] + more, indent + indent) ==
            Some("\n" + Strip(line, indent) + Dedent(more, indent + indent).value)
  {
    hide Dedent, Strip, Indented;
    DedentCons(indent + line, more, indent + indent);
    MarginTwice(line, indent);
    assert "\n" + "" == "\n";
  }

  lemma {:induction false} DedentTwice(lines: seq<string>, indent: string, outdent: string)
    requires outdent <= indent && forall k | 0 <= k < |lines| :: Indented(lines[k], indent)
    ensures Dedent(Margins(lines, indent) + [outdent], indent + indent) ==
            Some(Printed(StripAll(lines, indent), "") + if indent == "" then "\n" else "")
  {
    hide Dedent, Strip, Indented;
    var end := if indent == "" then "\n" else "";
    if lines == [] {
      assert Margins(lines, indent) + [outdent] == [outdent];
      assert StripAll(lines, indent) == [] && Printed([], "") == "" && "" + end == end;
      DedentOutdent(indent, outdent);
    } else {
      hide Printed;
      DedentTwice(lines[1..], indent, outdent);
      var more, stripped := Margins(lines[1..], indent) + [outdent], StripAll(lines, indent);
      assert Margins(lines, indent) + [outdent] == [indent + lines[0]] + more;
      assert Indented(lines[0], indent);
      DedentLineTwice(lines[0], indent, more);
      assert stripped[1..] == StripAll(lines[1..], indent);
      PlainStep(stripped);
      Assoc("\n" + stripped[0], Printed(stripped[1..], ""), end);
    }
  }

  lemma OutdentFits(outdent: string, indent: string)
    requires outdent <= indent
    ensures Indented(outdent, indent + indent)
  {
    assert (indent + indent)[..|outdent|] == indent[..|outdent|];
  }
}
