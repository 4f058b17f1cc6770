/**
 What a block without braces is: its first line whole, and the lines after it as long as they
 keep the first line's indentation or are part of it, and no brace closes more than they open.
 read_block is proved to read exactly that.
 */
module PlainBlocks {
  import opened Blocks
  import opened BlockText
  import opened Results
  import opened Text
  import BlockRoundTrip

  /** A later line without the indentation it shares with the first. */
  function Kept(line: string, lead: string): string {
    if lead <= line then line[|lead|..] else ""
  }

  function Margin(line: string, lead: string): nat {
    if lead <= line then |lead| else |line|
  }

  /** A line up to the brace that closes more than was opened, if there is one. */
  function BeforeClose(s: string, depth: nat): (t: string)
    requires depth >= 1
    ensures t <= s
    ensures Run(s, depth).None? ==> |t| < |s| && s[|t|] == '}'
    decreases |s|
  {
    if s == "" then ""
    else if s[0] == '}' && depth == 1 then ""
    else
      var rest := BeforeClose(s[1..], if s[0] == '{' then depth + 1 else if s[0] == '}' then depth - 1 else depth);
      assert [s[0]] + s[1..] == s;
      [s[0]] + rest
  }

  /** How much of a line that does not keep the indentation is passed over. */
  function Common(lead: string, line: string): (n: nat)
    ensures n <= |line|
  {
    if lead == "" || line == "" || lead[0] != line[0] then 0 else 1 + Common(lead[1..], line[1..])
  }

  /** The text of the later lines taken, and how far into them reading goes. */
  function Taken(lines: seq<string>, lead: string, depth: nat): Tail
    requires depth >= 1
    decreases |lines|
  {
    if lines == [] then Tail("", 0)
    else
      var line := lines[0];
      if !Indented(line, lead) then Tail("", 1 + Common(lead, line))
      else
        var kept := Kept(line, lead);
        match Run(kept, depth)
        case None => Tail("\n" + BeforeClose(kept, depth), 1 + Margin(line, lead) + |BeforeClose(kept, depth)|)
        case Some(next) =>
          RunDepth(kept, depth);
          var rest := Taken(lines[1..], lead, next);
          Tail("\n" + kept + rest.text, 1 + |line| + rest.pos)
  }

  lemma RunDepth(s: string, depth: nat)
    requires depth >= 1
    ensures Run(s, depth).Some? ==> Run(s, depth).value >= 1
  {
    BlockRoundTrip.RunConcat(s, "", depth);
  }

  // ---- Lines of the text ----

  /** Where the line from a position ends. */
  function EndOfLine(s: string, i: nat): (e: nat)
    requires i <= |s|
    ensures i <= e <= |s| && (e < |s| ==> s[e] == '\n')
    ensures forall k | i <= k < e :: s[k] != '\n'
  {
    LineEnd(s, i, 1, false).0
  }

  lemma LinesFrom(s: string, i: nat)
    requires i <= |s|
    ensures var e := EndOfLine(s, i);
            Lines(s[i..]) == if e == |s| then [s[i..e]] else [s[i..e]] + Lines(s[e + 1..])
  {
    hide Lines;
    var e := EndOfLine(s, i);
    assert '\n' !in s[i..e];
    if e == |s| {
      assert s[i..] == s[i..e];
      LinesOne(s[i..e]);
    } else {
      assert s[i..] == s[i..e] + "\n" + s[e + 1..];
      LinesCons(s[i..e], s[e + 1..]);
    }
  }

  lemma EndFurther(s: string, i: nat, j: nat)
    requires i <= |s| && i <= j <= EndOfLine(s, i)
    ensures EndOfLine(s, j) == EndOfLine(s, i)
  {
    hide LineEnd;
    var e, f := EndOfLine(s, i), EndOfLine(s, j);
    assert !(e < f) && !(f < e);
  }

  lemma {:induction false} PlainMargin(s: string, i: nat, lead: string, depth: nat)
    requires i <= |s|
    ensures var e := EndOfLine(s, i);
            var line := s[i..e];
            MarginOf(s, i, lead, depth, false) ==
              if Indented(line, lead) then Through(i + Margin(line, lead)) else Mismatch(i + Common(lead, line))
    decreases |lead|
  {
    var e := EndOfLine(s, i);
    var line := s[i..e];
    if lead == "" || i >= |s| || s[i] == '\n' {
      assert lead == "" || line == "";
    } else {
      assert line != "" && line[0] == s[i];
      PrefixCons(lead, line);
      PrefixCons(line, lead);
      if s[i] == lead[0] {
        EndFurther(s, i, i + 1);
        assert line[1..] == s[i + 1..e];
        hide EndOfLine;
        PlainMargin(s, i + 1, lead[1..], depth);
      }
    }
  }

  lemma {:induction false} PlainLineEnd(s: string, i: nat, depth: nat)
    requires i <= |s| && depth >= 1
    ensures var e, (end, next) := EndOfLine(s, i), LineEnd(s, i, depth, true);
            var line := s[i..e];
            match Run(line, depth)
            case Some(d) => end == e && next == d
            case None => end == i + |BeforeClose(line, depth)| && end < |s| && s[end] == '}'
    decreases |s| - i
  {
    var e := EndOfLine(s, i);
    var line := s[i..e];
    if i >= |s| || s[i] == '\n' {
      assert line == "";
    } else {
      assert line[0] == s[i];
      EndFurther(s, i, i + 1);
      assert line[1..] == s[i + 1..e];
      if s[i] == '}' && depth == 1 {
      } else {
        PlainLineEnd(s, i + 1, if s[i] == '{' then depth + 1 else if s[i] == '}' then depth - 1 else depth);
      }
    }
  }

  // ---- read_block reads just these lines ----

  /** One later line: refused, cut at the brace that closes, or whole. */
  lemma PlainLine(s: string, i: nat, lead: string, depth: nat)
    requires i < |s| && s[i] == '\n' && depth >= 1
    ensures var e := EndOfLine(s, i + 1);
            var line := s[i + 1..e];
            var kept := Kept(line, lead);
            if !Indented(line, lead) then ReadRest(s, i, lead, depth, false) == Ok(Tail("", i + 1 + Common(lead, line)))
            else
              match Run(kept, depth)
              case None =>
                ReadRest(s, i, lead, depth, false) ==
                Ok(Tail("\n" + BeforeClose(kept, depth) + "", i + 1 + Margin(line, lead) + |BeforeClose(kept, depth)|))
              case Some(next) =>
                next >= 1 && ReadRest(s, i, lead, depth, false) ==
                    Prepend("\n" + kept, ReadRest(s, e, lead, next, false))
  {
    hide LineEnd, MarginOf, EndOfLine, Run, BeforeClose, Common, Kept, Margin, Indented, ReadRest;
    var e := EndOfLine(s, i + 1);
    var line := s[i + 1..e];
    if Indented(line, lead) {
      KeptLine(s, i, lead, depth);
    } else {
      PlainMargin(s, i + 1, lead, depth);
      RestStep(s, i, lead, depth, false);
    }
  }

  lemma KeptLine(s: string, i: nat, lead: string, depth: nat)
    requires i < |s| && s[i] == '\n' && depth >= 1 && Indented(s[i + 1..EndOfLine(s, i + 1)], lead)
    ensures var e := EndOfLine(s, i + 1);
            var line := s[i + 1..e];
            var kept := Kept(line, lead);
            match Run(kept, depth)
            case None =>
              ReadRest(s, i, lead, depth, false) ==
              Ok(Tail("\n" + BeforeClose(kept, depth) + "", i + 1 + Margin(line, lead) + |BeforeClose(kept, depth)|))
            case Some(next) =>
              next >= 1 && ReadRest(s, i, lead, depth, false) ==
                  Prepend("\n" + kept, ReadRest(s, e, lead, next, false))
  {
    hide LineEnd, MarginOf, EndOfLine, Run, BeforeClose, Common, Kept, Margin, Indented, ReadRest, Prepend;
    var e := EndOfLine(s, i + 1);
    var line := s[i + 1..e];
    PlainMargin(s, i + 1, lead, depth);
    RestStep(s, i, lead, depth, false);
    MarginFits(line, lead);
    var pos, kept := i + 1 + Margin(line, lead), Kept(line, lead);
    assert s[pos..e] == kept;
    EndFurther(s, i + 1, pos);
    PlainLineEnd(s, pos, depth);
    RunDepth(kept, depth);
    if Run(kept, depth).None? {
      LineCut(s, pos, e, lead, depth);
    }
  }

  /** A line with a brace that closes the block. */
  lemma LineCut(s: string, pos: nat, e: nat, lead: string, depth: nat)
    requires pos <= e <= |s| && depth >= 1 && e == EndOfLine(s, pos) && Run(s[pos..e], depth).None?
    ensures var (end, next) := LineEnd(s, pos, depth, true);
            var cut := BeforeClose(s[pos..e], depth);
            Prepend("\n" + s[pos..end], ReadRest(s, end, lead, next, false)) == Ok(Tail("\n" + cut + "", pos + |cut|))
  {
    hide LineEnd, EndOfLine, Run, BeforeClose, ReadRest;
    PlainLineEnd(s, pos, depth);
    var (end, next) := LineEnd(s, pos, depth, true);
    var cut := BeforeClose(s[pos..e], depth);
    assert s[pos..pos + |cut|] == s[pos..e][..|cut|] == cut;
    RestEnds(s, end, lead, next, false);
  }

  /** The later lines of a block without braces, from the newline before them. */
  lemma {:induction false} PlainRest(s: string, i: nat, lead: string, depth: nat)
    requires i < |s| && s[i] == '\n' && depth >= 1
    ensures var taken := Taken(Lines(s[i + 1..]), lead, depth);
            ReadRest(s, i, lead, depth, false) == Ok(Tail(taken.text, i + taken.pos))
    decreases |s| - i
  {
    hide ReadRest, EndOfLine, LineEnd, Lines, Run, BeforeClose, Common, Kept, Margin, Indented;
    var e := EndOfLine(s, i + 1);
    var line := s[i + 1..e];
    var kept := Kept(line, lead);
    LinesFrom(s, i + 1);
    PlainLine(s, i, lead, depth);
    var more := if e < |s| then Lines(s[e + 1..]) else [];
    assert Lines(s[i + 1..]) == [line] + more && ([line] + more)[1..] == more;
    assert "\n" + BeforeClose(kept, depth) + "" == "\n" + BeforeClose(kept, depth);
    assert "\n" + kept + "" == "\n" + kept;
    if !Indented(line, lead) || Run(kept, depth).None? {
    } else {
      var next := Run(kept, depth).value;
      if e < |s| {
        PlainRest(s, e, lead, next);
      } else {
        RestEnds(s, e, lead, next, false);
      }
    }
  }

  lemma MarginFits(line: string, lead: string)
    requires Indented(line, lead)
    ensures Margin(line, lead) <= |line| && line[Margin(line, lead)..] == Kept(line, lead)
  {
  }

  /**
   What read_block reads of a block without braces, and where it stops. It never fails.
   */
  lemma PlainBlockIs(s: string, start: nat, lead: string)
    requires start <= |s|
    ensures var lines := Lines(s[start..]);
            var taken := Taken(lines[1..], lead, 1);
            ReadLines(s, start, lead, false) == Ok(Tail(lines[0] + taken.text, start + |lines[0]| + taken.pos))
  {
    hide MarginOf, Lines, Run, ReadRest;
    var e := EndOfLine(s, start);
    LinesFrom(s, start);
    FirstDepth(s, start);
    if e < |s| {
      PlainRest(s, e, lead, 1);
    } else {
      RestEnds(s, e, lead, 1, false);
    }
  }

  /** The indentation collected over blanks and newlines is what follows the last newline. */
  lemma {:induction false} LeadIsLastLine(space: string, lead: string)
    ensures BlockRoundTrip.LeadAfter(space, lead) == if '\n' in space then LastLine(space) else lead + space
    decreases |space|
  {
    if space == "" {
      assert lead + space == lead;
    } else {
      var c, rest := [space[0]], space[1..];
      assert space == c + rest;
      hide LineStart;
      LastLineConcat(c, rest);
      if space[0] == '\n' {
        LeadIsLastLine(rest, "");
        assert "" + rest == rest && LastLine("\n") == "" by { NewlineLast(); }
      } else {
        LeadIsLastLine(rest, lead + c);
        assert lead + c + rest == lead + space;
      }
    }
  }

  lemma NewlineLast()
    ensures LastLine("\n") == ""
  {
  }

  /**
   The block read_block reads after blanks and newlines that no brace follows: from the first
   character that is neither, with the indentation before it on its line.
   */
  lemma PlainBlockRead(s: string, i: nat, gap: string)
    requires BlockRoundTrip.AllSpace(gap) && LooksAt(s, i, gap)
    requires var start := i + |gap|; start < |s| && !InGap(s, start) && s[start] != '{'
    ensures var start := i + |gap|;
            var lines := Lines(s[start..]);
            var taken := Taken(lines[1..], LastLine(gap), 1);
            ReadBlockSpec(s, i) ==
              Ok(Block(lines[0] + taken.text, start, start + |lines[0]| + taken.pos, false, 0))
  {
    hide *;
    var start := i + |gap|;
    BlockRoundTrip.SkipSpaces(s, i, gap, "");
    GapLead(gap);
    StartFound(s, start, LastLine(gap));
    PlainBlockIs(s, start, LastLine(gap));
    BlockSteps(s, i, start, LastLine(gap));
  }

  lemma GapLead(gap: string)
    ensures BlockRoundTrip.LeadAfter(gap, "") == LastLine(gap)
  {
    LeadIsLastLine(gap, "");
    OneLine(gap);
    assert "" + gap == gap;
  }

  lemma OneLine(s: string)
    ensures '\n' !in s ==> LastLine(s) == s
  {
    assert s[0..] == s;
  }

  lemma StartFound(s: string, i: nat, lead: string)
    requires i < |s| && !InGap(s, i)
    ensures SkipGap(s, i, lead) == Ok(Gap(i, lead, 0))
  {
  }

  lemma BlockSteps(s: string, i: nat, start: nat, lead: string)
    requires SkipGap(s, i, "") == Ok(Gap(start, lead, 0)) && start < |s| && s[start] != '{'
    ensures ReadBlockSpec(s, i) == MakeBlock(ReadLines(s, start, lead, false), start, false, 0)
    ensures forall r :: MakeBlock(Ok(r), start, false, 0) == Ok(Block(r.text, start, r.pos, false, 0))
  {
    hide SkipGap, ReadLines;
  }

  /** Where only blanks and newlines follow there is no block. */
  lemma NoBlockLeft(s: string, i: nat)
    requires i <= |s| && BlockRoundTrip.AllSpace(s[i..])
    ensures ReadBlockSpec(s, i) == Err(NoBlock)
  {
    hide SkipGap;
    BlockRoundTrip.SkipSpaces(s, i, s[i..], "");
    GapAtEnd(s, BlockRoundTrip.LeadAfter(s[i..], ""));
  }

  lemma GapAtEnd(s: string, lead: string)
    ensures SkipGap(s, |s|, lead) == Err(NoBlock)
  {
  }

  lemma {:induction false} FirstDepth(s: string, i: nat)
    requires i <= |s|
    ensures LineEnd(s, i, 1, false).1 == 1
    decreases |s| - i
  {
    if i >= |s| || s[i] == '\n' {
    } else {
      FirstDepth(s, i + 1);
    }
  }

  // ---- Which lines those are ----

  /** How many later lines are taken, the one with a closing brace included. */
  function TakenCount(lines: seq<string>, lead: string, depth: nat): (n: nat)
    requires depth >= 1
    ensures n <= |lines|
    decreases |lines|
  {
    if lines == [] || !Indented(lines[0], lead) then 0
    else
      match Run(Kept(lines[0], lead), depth)
      case None => 1
      case Some(next) =>
        RunDepth(Kept(lines[0], lead), depth);
        1 + TakenCount(lines[1..], lead, next)
  }

  lemma {:induction false} NoNewlines(s: string)
    requires '\n' !in s
    ensures CountNewlines(s) == 0
  {
    if s == "" {
    } else {
      NoNewlines(s[1..]);
    }
  }

  lemma OneNewline(line: string, rest: string)
    requires '\n' !in line
    ensures CountNewlines("\n" + line + rest) == 1 + CountNewlines(rest)
  {
    NoNewlines(line);
    assert ("\n" + line)[1..] == line;
    CountNewlinesConcat("\n" + line, rest);
  }

  /** A line break of the text for each line taken. */
  lemma {:induction false} TakenBreaks(lines: seq<string>, lead: string, depth: nat)
    requires depth >= 1 && forall k | 0 <= k < |lines| :: '\n' !in lines[k]
    ensures CountNewlines(Taken(lines, lead, depth).text) == TakenCount(lines, lead, depth)
    decreases |lines|
  {
    hide Run, Indented, CountNewlines;
    if lines == [] || !Indented(lines[0], lead) {
      NoNewlines("");
    } else {
      var kept := Kept(lines[0], lead);
      assert '\n' !in kept;
      RunDepth(kept, depth);
      if Run(kept, depth).Some? {
        TakenBreaks(lines[1..], lead, Run(kept, depth).value);
        OneNewline(kept, Taken(lines[1..], lead, Run(kept, depth).value).text);
      } else {
        var cut := BeforeClose(kept, depth);
        OneNewline(cut, "");
        NoNewlines("");
        assert "\n" + cut + "" == "\n" + cut;
      }
    }
  }

  function Flat(lines: seq<string>): string {
    if lines == [] then "" else lines[0] + Flat(lines[1..])
  }

  /** Indentation has no braces. */
  lemma KeptBraces(line: string, lead: string, depth: nat)
    requires depth >= 1 && AllBlank(lead) && Indented(line, lead)
    ensures Run(Kept(line, lead), depth) == Run(line, depth)
  {
    hide Run;
    if lead <= line {
      BlankRun(lead, depth);
      BlockRoundTrip.RunConcat(lead, Kept(line, lead), depth);
      assert line == lead + Kept(line, lead);
    } else {
      assert forall k | 0 <= k < |line| :: line[k] == lead[k];
      BlankRun(line, depth);
      BlankRun("", depth);
    }
  }

  lemma BlankRun(s: string, depth: nat)
    requires depth >= 1 && AllBlank(s)
    ensures Run(s, depth) == Some(depth)
  {
    BlockRoundTrip.RunSpace(s, depth);
  }

  lemma FlatCons(lines: seq<string>, k: nat)
    requires 0 < k <= |lines|
    ensures Flat(lines[..k]) == lines[0] + Flat(lines[1..][..k - 1])
  {
    assert lines[..k][1..] == lines[1..][..k - 1];
  }

  /**
   Which lines a block without braces takes: those up to the first that does not keep the
   indentation, or up to and with the first whose braces close more than has been opened on the
   later lines.
   */
  lemma {:induction false} TakenLines(lines: seq<string>, lead: string, depth: nat)
    requires depth >= 1 && AllBlank(lead)
    ensures var n := TakenCount(lines, lead, depth);
            && (forall k | 0 <= k < n :: Indented(lines[k], lead) && Run(Flat(lines[..k]), depth).Some?)
            && (n < |lines| ==> !Indented(lines[n], lead) || Run(Flat(lines[..n]), depth).None?)
    decreases |lines|
  {
    hide Run, Indented, Kept;
    var n := TakenCount(lines, lead, depth);
    assert Flat(lines[..0]) == "";
    BlankRun("", depth);
    if lines == [] || !Indented(lines[0], lead) {
    } else {
      KeptBraces(lines[0], lead, depth);
      RunDepth(lines[0], depth);
      var first, rest := Run(lines[0], depth), lines[1..];
      if first.Some? {
        TakenLines(rest, lead, first.value);
      }
      forall k | 0 < k <= |lines|
        ensures Run(Flat(lines[..k]), depth) ==
                match first case None => None case Some(next) => Run(Flat(rest[..k - 1]), next)
      {
        FlatCons(lines, k);
        BlockRoundTrip.RunConcat(lines[0], Flat(rest[..k - 1]), depth);
      }
      forall k | 0 < k < n
        ensures Indented(lines[k], lead) && Run(Flat(lines[..k]), depth).Some?
      {
        assert lines[k] == rest[k - 1];
      }
    }
  }
}
