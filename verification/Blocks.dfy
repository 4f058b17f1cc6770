/**
 read_block: reads a block, bracketed by braces or not, taking off the indentation of its
 first line. The loops are proved against a line-by-line specification; for bracketed blocks
 that is proved equal to a reference: match the braces, split what is between them into
 lines, and take the indentation off each.
 */
module Blocks {
  import opened Results
  import opened Text

  datatype BlockError = NoBlock | BadIndent | NoClose | OpenComment

  /** Where the text after a gap starts, the indentation before it, and the comments skipped. */
  datatype Gap = Gap(pos: nat, lead: string, comments: nat)

  /** What the indentation of a line came to. */
  datatype Margin = Through(pos: nat) | Closed(pos: nat) | Mismatch(pos: nat)

  datatype Tail = Tail(text: string, pos: nat)

  /** A block as read: its text, where that starts, the position after it, and comments between the brace and it. */
  datatype Block = Block(text: string, start: nat, pos: nat, braced: bool, comments: nat)

  predicate InGap(s: string, i: nat) {
    i < |s| && (IsBlank(s[i]) || s[i] == '\n' || LineCommentAt(s, i))
  }

  function Breaks(s: string, i: nat, j: nat): nat
    requires i <= j <= |s|
  {
    CountNewlines(s[i..j])
  }

  /** Blanks, newlines and comments; a newline restarts the indentation, the end of a comment does not. */
  function SkipGap(s: string, i: nat, lead: string): (r: Result<Gap, BlockError>)
    ensures r.Ok? ==> i <= r.value.pos < |s| && !InGap(s, r.value.pos)
    ensures r.Ok? && AllBlank(lead) ==> AllBlank(r.value.lead)
    decreases |s| - i
  {
    if i >= |s| then Err(NoBlock)
    else if s[i] == '\n' then SkipGap(s, i + 1, "")
    else if IsBlank(s[i]) then SkipGap(s, i + 1, lead + [s[i]])
    else if LineCommentAt(s, i) then
      match Find(s, "\n", i)
      case None => Err(OpenComment)
      case Some(end) =>
        match SkipGap(s, end + 1, lead)
        case Err(error) => Err(error)
        case Ok(gap) => Ok(gap.(comments := gap.comments + 1))
    else Ok(Gap(i, lead, 0))
  }

  /** The end of the line, of the text, or of the block if braces count; and the brace depth there. */
  function LineEnd(s: string, i: nat, depth: nat, count: bool): (r: (nat, nat))
    requires i <= |s| && depth >= 1
    ensures i <= r.0 <= |s| && r.1 >= 1
    ensures forall k | i <= k < r.0 :: s[k] != '\n'
    ensures r.0 < |s| ==> s[r.0] == '\n' || (count && s[r.0] == '}' && r.1 == 1)
    decreases |s| - i
  {
    if i >= |s| || s[i] == '\n' then (i, depth)
    else if count && s[i] == '}' && depth == 1 then (i, depth)
    else
      var next := if count && s[i] == '{' then depth + 1 else if count && s[i] == '}' then depth - 1 else depth;
      LineEnd(s, i + 1, next, count)
  }

  function MarginOf(s: string, i: nat, lead: string, depth: nat, braced: bool): (m: Margin)
    requires i <= |s|
    ensures i <= m.pos <= |s|
    decreases |lead|
  {
    if lead == "" || i >= |s| || s[i] == '\n' then Through(i)
    else if braced && s[i] == '}' && depth == 1 then Closed(i + 1)
    else if s[i] != lead[0] then Mismatch(i)
    else MarginOf(s, i + 1, lead[1..], depth, braced)
  }

  /** The lines after the first, from the newline before them. */
  function ReadRest(s: string, i: nat, lead: string, depth: nat, braced: bool): (r: Result<Tail, BlockError>)
    requires i <= |s| && (i < |s| && s[i] == '\n' ==> depth >= 1)
    ensures r.Ok? ==> i <= r.value.pos <= |s|
    decreases |s| - i
  {
    if i < |s| && s[i] == '\n' then
      match MarginOf(s, i + 1, lead, depth, braced)
      case Closed(pos) => Ok(Tail("", pos))
      case Mismatch(pos) => if braced then Err(BadIndent) else Ok(Tail("", pos))
      case Through(pos) =>
        var (end, next) := LineEnd(s, pos, depth, true);
        if braced && end >= |s| then Err(NoClose)
        else
          match ReadRest(s, end, lead, next, braced)
          case Err(error) => Err(error)
          case Ok(rest) => Ok(Tail("\n" + s[pos..end] + rest.text, rest.pos))
    else if !braced then Ok(Tail("", i))
    else if At(s, i) == '}' then Ok(Tail("", i + 1))
    else Err(NoClose)
  }

  /** The block whose first line starts here. */
  function ReadLines(s: string, start: nat, lead: string, braced: bool): (r: Result<Tail, BlockError>)
    requires start <= |s|
    ensures r.Ok? ==> start <= r.value.pos <= |s|
  {
    var (end, depth) := LineEnd(s, start, 1, braced);
    match ReadRest(s, end, lead, depth, braced)
    case Err(error) => Err(error)
    case Ok(rest) => Ok(Tail(s[start..end] + rest.text, rest.pos))
  }

  function ReadBlockSpec(s: string, i: nat): (r: Result<Block, BlockError>)
    ensures r.Ok? ==> i <= r.value.start <= r.value.pos <= |s|
  {
    match SkipGap(s, i, "")
    case Err(error) => Err(error)
    case Ok(gap) =>
      var braced := s[gap.pos] == '{';
      if !braced then MakeBlock(ReadLines(s, gap.pos, gap.lead, false), gap.pos, false, 0)
      else if gap.pos + 1 >= |s| then Err(NoClose)
      else
        match SkipGap(s, gap.pos + 1, "")
        case Err(error) => Err(error)
        case Ok(inner) => MakeBlock(ReadLines(s, inner.pos, inner.lead, true), inner.pos, true, inner.comments)
  }

  function MakeBlock(r: Result<Tail, BlockError>, start: nat, braced: bool, comments: nat): Result<Block, BlockError> {
    match r
    case Err(error) => Err(error)
    case Ok(tail) => Ok(Block(tail.text, start, tail.pos, braced, comments))
  }

  // ---- Counting newlines ----

  lemma BreaksJoin(s: string, i: nat, j: nat, k: nat)
    requires i <= j <= k <= |s|
    ensures Breaks(s, i, k) == Breaks(s, i, j) + Breaks(s, j, k)
  {
    assert s[i..k] == s[i..j] + s[j..k];
    CountNewlinesConcat(s[i..j], s[j..k]);
  }

  lemma BreaksAt(s: string, i: nat)
    requires i < |s|
    ensures Breaks(s, i, i + 1) == if s[i] == '\n' then 1 else 0
  {
    assert s[i..i + 1] == [s[i]];
    assert [s[i]][1..] == "" && CountNewlines("") == 0;
  }

  lemma {:induction false} BreaksNone(s: string, i: nat, j: nat)
    requires i <= j <= |s| && forall k | i <= k < j :: s[k] != '\n'
    ensures Breaks(s, i, j) == 0
    decreases j - i
  {
    if i >= j {
    } else {
      assert s[i..j][0] == s[i] && s[i..j][1..] == s[i + 1..j];
      BreaksNone(s, i + 1, j);
    }
  }

  // ---- The loops ----

  /** The loop that skips to the text; the line counters go up with each newline and, when asked, each comment. */
  method SkipGapLoop(inStr: string, start: nat, lines: int, blockLines: int, countComments: bool)
    returns (r: Result<Gap, BlockError>, lineNo: int, bLineNo: int)
    requires start < |inStr|
    ensures r == SkipGap(inStr, start, "")
    ensures r.Ok? ==> lineNo == lines + Breaks(inStr, start, r.value.pos)
    ensures r.Ok? ==>
              bLineNo ==
              blockLines + Breaks(inStr, start, r.value.pos) - if countComments then 0 else r.value.comments
  {
    hide Breaks, LineCommentAt, Find, AllBlank;
    lineNo, bLineNo := lines, blockLines;
    var linePos, leadIndenting, comments := start, "", 0;
    BreaksEmpty(inStr, start);
    while InGap(inStr, linePos)
      invariant start <= linePos < |inStr|
      invariant lineNo == lines + Breaks(inStr, start, linePos)
      invariant bLineNo == blockLines + Breaks(inStr, start, linePos) - if countComments then 0 else comments
      invariant SkipGap(inStr, start, "") == AddComments(SkipGap(inStr, linePos, leadIndenting), comments)
      decreases |inStr| - linePos
    {
      BreaksAt(inStr, linePos);
      BreaksJoin(inStr, start, linePos, linePos + 1);
      if inStr[linePos] == '\n' {
        lineNo, bLineNo, leadIndenting := lineNo + 1, bLineNo + 1, "";
      } else if inStr[linePos] == ' ' || inStr[linePos] == '\t' {
        leadIndenting := leadIndenting + [inStr[linePos]];
      } else {
        var end := Find(inStr, "\n", linePos);
        if end.None? {
          return Err(OpenComment), lineNo, bLineNo;
        }
        CommentEnds(inStr, linePos);
        BreaksJoin(inStr, start, linePos, end.value + 1);
        linePos := end.value;
        lineNo, comments := lineNo + 1, comments + 1;
        if countComments {
          bLineNo := bLineNo + 1;
        }
      }
      linePos := linePos + 1;
      if linePos >= |inStr| {
        return Err(NoBlock), lineNo, bLineNo;
      }
    }
    r := Ok(Gap(linePos, leadIndenting, comments));
  }

  function AddComments(r: Result<Gap, BlockError>, comments: nat): Result<Gap, BlockError> {
    match r
    case Err(error) => Err(error)
    case Ok(gap) => Ok(gap.(comments := comments + gap.comments))
  }

  lemma BreaksEmpty(s: string, i: nat)
    requires i <= |s|
    ensures Breaks(s, i, i) == 0
  {
    assert s[i..i] == "";
  }

  /** A comment runs to the first newline. */
  lemma CommentEnds(s: string, i: nat)
    requires i <= |s| && Find(s, "\n", i).Some?
    ensures var end := Find(s, "\n", i).value;
            end < |s| && s[end] == '\n' && Breaks(s, i, end + 1) == 1
  {
    hide Find;
    var end := Find(s, "\n", i).value;
    assert LooksAt(s, end, "\n");
    LooksAtIndex(s, end, "\n", 0);
    forall k | i <= k < end
      ensures s[k] != '\n'
    {
      assert !LooksAt(s, k, "\n");
      assert s[k..k + 1] == [s[k]];
    }
    BreaksNone(s, i, end);
    BreaksAt(s, end);
    BreaksJoin(s, i, end, end + 1);
  }

  /** The loop over the first line. */
  method ReadFirstLine(inStr: string, start: nat, needsCloseBrace: bool)
    returns (block: string, linePos: nat, depth: nat)
    requires start <= |inStr|
    ensures var (end, next) := LineEnd(inStr, start, 1, needsCloseBrace);
            && linePos == end && block == inStr[start..end]
            && (end < |inStr| && inStr[end] == '\n' ==> depth == next)
  {
    block, linePos, depth := "", start, 1;
    while linePos < |inStr| && inStr[linePos] != '\n'
      invariant start <= linePos <= |inStr| && depth >= 1
      invariant LineEnd(inStr, start, 1, needsCloseBrace) == LineEnd(inStr, linePos, depth, needsCloseBrace)
      invariant block == inStr[start..linePos]
      decreases |inStr| - linePos
    {
      if needsCloseBrace {
        if inStr[linePos] == '{' {
          depth := depth + 1;
        } else if inStr[linePos] == '}' {
          depth := depth - 1;
          if depth == 0 {
            break;
          }
        }
      }
      block := block + [inStr[linePos]];
      linePos := linePos + 1;
    }
  }

  /** The loop over the indentation of a line. */
  method SkipMargin(inStr: string, start: nat, leadIndenting: string, depth: nat, needsCloseBrace: bool)
    returns (m: Margin)
    requires start <= |inStr|
    ensures m == MarginOf(inStr, start, leadIndenting, depth, needsCloseBrace)
  {
    var i, linePos := 0, start;
    while i < |leadIndenting| && linePos < |inStr|
      invariant i <= |leadIndenting| && start <= linePos <= |inStr|
      invariant MarginOf(inStr, start, leadIndenting, depth, needsCloseBrace) ==
                MarginOf(inStr, linePos, leadIndenting[i..], depth, needsCloseBrace)
    {
      if inStr[linePos] == '\n' {
        break;
      } else if needsCloseBrace && inStr[linePos] == '}' && depth == 1 {
        return Closed(linePos + 1);
      } else if inStr[linePos] != leadIndenting[i] {
        return Mismatch(linePos);
      }
      assert leadIndenting[i..][1..] == leadIndenting[i + 1..];
      i, linePos := i + 1, linePos + 1;
    }
    m := Through(linePos);
  }

  /** The loop over a later line. */
  method ReadLine(inStr: string, start: nat, depthBefore: nat) returns (line: string, linePos: nat, depth: nat)
    requires start <= |inStr| && depthBefore >= 1
    ensures (linePos, depth) == LineEnd(inStr, start, depthBefore, true)
    ensures start <= linePos <= |inStr| && line == inStr[start..linePos]
  {
    line, linePos, depth := "", start, depthBefore;
    while linePos < |inStr| && inStr[linePos] != '\n'
      invariant start <= linePos <= |inStr| && depth >= 1
      invariant LineEnd(inStr, start, depthBefore, true) == LineEnd(inStr, linePos, depth, true)
      invariant line == inStr[start..linePos]
    {
      if inStr[linePos] == '{' {
        depth := depth + 1;
      } else if inStr[linePos] == '}' {
        if depth == 1 {
          break;
        }
        depth := depth - 1;
      }
      line := line + [inStr[linePos]];
      linePos := linePos + 1;
    }
  }

  /** The loop over the lines after the first. */
  method ReadRestLoop(inStr: string, start: nat, first: string, leadIndenting: string, firstDepth: nat,
                      needsCloseBrace: bool, lines: int)
    returns (r: Result<Tail, BlockError>, lineNo: int)
    requires start <= |inStr| && (start < |inStr| && inStr[start] == '\n' ==> firstDepth >= 1)
    requires AllBlank(leadIndenting)
    ensures r == Prepend(first, ReadRest(inStr, start, leadIndenting, firstDepth, needsCloseBrace))
    ensures r.Ok? ==> start <= r.value.pos <= |inStr| && lineNo == lines + Breaks(inStr, start, r.value.pos)
  {
    hide Breaks, LineEnd, MarginOf, AllBlank, ReadRest;
    var block, linePos, depth := first, start, firstDepth;
    lineNo := lines;
    ghost var whole := Prepend(first, ReadRest(inStr, start, leadIndenting, firstDepth, needsCloseBrace));
    BreaksEmpty(inStr, start);
    while linePos < |inStr| && inStr[linePos] == '\n'
      invariant start <= linePos <= |inStr|
      invariant linePos < |inStr| && inStr[linePos] == '\n' ==> depth >= 1
      invariant lineNo == lines + Breaks(inStr, start, linePos)
      invariant whole == Prepend(block, ReadRest(inStr, linePos, leadIndenting, depth, needsCloseBrace))
    {
      BreaksAt(inStr, linePos);
      BreaksJoin(inStr, start, linePos, linePos + 1);
      RestStep(inStr, linePos, leadIndenting, depth, needsCloseBrace);
      lineNo := lineNo + 1;
      linePos := linePos + 1;
      assert block + "" == block;
      var margin := SkipMargin(inStr, linePos, leadIndenting, depth, needsCloseBrace);
      MarginBreaks(inStr, linePos, leadIndenting, depth, needsCloseBrace);
      BreaksJoin(inStr, start, linePos, margin.pos);
      match margin {
        case Closed(pos) =>
          return Ok(Tail(block, pos)), lineNo;
        case Mismatch(pos) =>
          if needsCloseBrace {
            return Err(BadIndent), lineNo;
          }
          return Ok(Tail(block, pos)), lineNo;
        case Through(pos) =>
          var line, end, next := ReadLine(inStr, pos, depth);
          LineBreaks(inStr, pos, depth, true);
          BreaksJoin(inStr, start, pos, end);
          if needsCloseBrace && end >= |inStr| {
            return Err(NoClose), lineNo;
          }
          PrependTwice(block, "\n" + line, ReadRest(inStr, end, leadIndenting, next, needsCloseBrace));
          assert block + ("\n" + line) == block + "\n" + line;
          block := block + "\n" + line;
          linePos, depth := end, next;
      }
    }
    RestEnds(inStr, linePos, leadIndenting, depth, needsCloseBrace);
    assert block + "" == block;
    if needsCloseBrace && At(inStr, linePos) != '}' {
      return Err(NoClose), lineNo;
    }
    if needsCloseBrace {
      BreaksAt(inStr, linePos);
      BreaksJoin(inStr, start, linePos, linePos + 1);
      linePos := linePos + 1;
    }
    r := Ok(Tail(block, linePos));
  }

  lemma RestStep(s: string, i: nat, lead: string, depth: nat, braced: bool)
    requires i < |s| && s[i] == '\n' && depth >= 1
    ensures ReadRest(s, i, lead, depth, braced) ==
            match MarginOf(s, i + 1, lead, depth, braced)
            case Closed(pos) => Ok(Tail("", pos))
            case Mismatch(pos) => if braced then Err(BadIndent) else Ok(Tail("", pos))
            case Through(pos) =>
              var (end, next) := LineEnd(s, pos, depth, true);
              if braced && end >= |s| then Err(NoClose)
              else Prepend("\n" + s[pos..end], ReadRest(s, end, lead, next, braced))
  {
    hide LineEnd, MarginOf;
  }

  lemma RestEnds(s: string, i: nat, lead: string, depth: nat, braced: bool)
    requires i <= |s| && !(i < |s| && s[i] == '\n')
    ensures ReadRest(s, i, lead, depth, braced) ==
            if !braced then Ok(Tail("", i)) else if At(s, i) == '}' then Ok(Tail("", i + 1)) else Err(NoClose)
  {
  }

  function Prepend(text: string, r: Result<Tail, BlockError>): Result<Tail, BlockError> {
    match r
    case Err(error) => Err(error)
    case Ok(tail) => Ok(Tail(text + tail.text, tail.pos))
  }

  lemma PrependTwice(a: string, b: string, r: Result<Tail, BlockError>)
    ensures Prepend(a, Prepend(b, r)) == Prepend(a + b, r)
  {
    if r.Ok? {
      assert a + (b + r.value.text) == a + b + r.value.text;
    }
  }

  lemma {:induction false} MarginBreaks(s: string, i: nat, lead: string, depth: nat, braced: bool)
    requires i <= |s| && AllBlank(lead)
    ensures Breaks(s, i, MarginOf(s, i, lead, depth, braced).pos) == 0
    decreases |lead|
  {
    var m := MarginOf(s, i, lead, depth, braced);
    BreaksEmpty(s, i);
    if lead == "" || i >= |s| || s[i] == '\n' {
    } else {
      BreaksAt(s, i);
      if !(braced && s[i] == '}' && depth == 1) && s[i] == lead[0] {
        MarginBreaks(s, i + 1, lead[1..], depth, braced);
        BreaksJoin(s, i, i + 1, m.pos);
      }
    }
  }

  lemma LineBreaks(s: string, i: nat, depth: nat, count: bool)
    requires i <= |s| && depth >= 1
    ensures Breaks(s, i, LineEnd(s, i, depth, count).0) == 0
  {
    hide LineEnd, Breaks;
    BreaksNone(s, i, LineEnd(s, i, depth, count).0);
  }

  /**
   read_block. It reads what the specification says, and on success lineNo has gone up by the
   newlines read and bLineNo by those before the block's first line, comments between the
   opening brace and that line apart.
   */
  method ReadBlock(inStr: string, start: nat, lines: int, blockLines: int)
    returns (r: Result<Block, BlockError>, linePos: nat, lineNo: int, bLineNo: int)
    ensures r == if start >= |inStr| then Err(NoBlock) else ReadBlockSpec(inStr, start)
    ensures r.Ok? ==>
              && start <= linePos == r.value.pos <= |inStr|
              && lineNo == lines + Breaks(inStr, start, linePos)
              && bLineNo == blockLines + Breaks(inStr, start, r.value.start) - r.value.comments
  {
    hide SkipGap, LineEnd, ReadRest, Breaks;
    linePos, lineNo, bLineNo := start, lines, blockLines;
    if linePos >= |inStr| {
      return Err(NoBlock), linePos, lineNo, bLineNo;
    }
    var gap, needsCloseBrace;
    gap, lineNo, bLineNo := SkipGapLoop(inStr, linePos, lineNo, bLineNo, true);
    if gap.Err? {
      return Err(gap.error), linePos, lineNo, bLineNo;
    }
    linePos, needsCloseBrace := gap.value.pos, false;
    if inStr[linePos] == '{' {
      needsCloseBrace := true;
      linePos := linePos + 1;
      BreaksAt(inStr, gap.value.pos);
      BreaksJoin(inStr, start, gap.value.pos, linePos);
      if linePos >= |inStr| {
        return Err(NoClose), linePos, lineNo, bLineNo;
      }
      ghost var inside := linePos;
      gap, lineNo, bLineNo := SkipGapLoop(inStr, linePos, lineNo, bLineNo, false);
      if gap.Err? {
        return Err(gap.error), linePos, lineNo, bLineNo;
      }
      linePos := gap.value.pos;
      BreaksJoin(inStr, start, inside, linePos);
    }
    var blockStart := linePos;
    var block, depth, tail;
    block, linePos, depth := ReadFirstLine(inStr, linePos, needsCloseBrace);
    LineBreaks(inStr, blockStart, 1, needsCloseBrace);
    BreaksJoin(inStr, start, blockStart, linePos);
    FirstDepth(inStr, blockStart, linePos, gap.value.lead, depth, needsCloseBrace);
    ghost var end := linePos;
    tail, lineNo := ReadRestLoop(inStr, linePos, block, gap.value.lead, depth, needsCloseBrace, lineNo);
    if tail.Err? {
      return Err(tail.error), linePos, lineNo, bLineNo;
    }
    linePos := tail.value.pos;
    BreaksJoin(inStr, start, end, linePos);
    var comments := if needsCloseBrace then gap.value.comments else 0;
    r := Ok(Block(tail.value.text, blockStart, linePos, needsCloseBrace, comments));
  }

  /** Away from a newline the depth after the first line no longer matters. */
  lemma FirstDepth(s: string, start: nat, end: nat, lead: string, depth: nat, braced: bool)
    requires start <= |s| && end == LineEnd(s, start, 1, braced).0
    requires end < |s| && s[end] == '\n' ==> depth == LineEnd(s, start, 1, braced).1
    ensures end < |s| && s[end] == '\n' ==> depth >= 1
    ensures ReadLines(s, start, lead, braced) == Prepend(s[start..end], ReadRest(s, end, lead, depth, braced))
  {
    hide LineEnd, ReadRest;
    if !(end < |s| && s[end] == '\n') {
      RestEnds(s, end, lead, depth, braced);
      RestEnds(s, end, lead, LineEnd(s, start, 1, braced).1, braced);
    }
  }
}
