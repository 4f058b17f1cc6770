/**
 What a bracketed block is, without scanning: the text up to the brace that balances its
 opening one, with the first line's indentation taken off the others. read_block is proved to
 read exactly that, so a printed block reads back.
 */
module BlockText {
  import opened Blocks
  import opened Results
  import opened Text

  /** The brace depth after a text, or none when it would close the block. */
  function Run(s: string, depth: nat): Option<nat>
    requires depth >= 1
    decreases |s|
  {
    if s == "" then Some(depth)
    else if s[0] == '{' then Run(s[1..], depth + 1)
    else if s[0] == '}' then if depth == 1 then None else Run(s[1..], depth - 1)
    else Run(s[1..], depth)
  }

  predicate Balanced(s: string) {
    Run(s, 1) == Some(1)
  }

  /** The brace that closes a block, seen from inside it. */
  function Close(s: string, i: nat, depth: nat): (c: Option<nat>)
    requires depth >= 1
    ensures c.Some? ==> i <= c.value < |s| && s[c.value] == '}'
    decreases |s| - i
  {
    if i >= |s| then None
    else if s[i] == '{' then Close(s, i + 1, depth + 1)
    else if s[i] == '}' then if depth == 1 then Some(i) else Close(s, i + 1, depth - 1)
    else Close(s, i + 1, depth)
  }

  /** The closing brace is the one with a balanced text before it. */
  lemma {:induction false} CloseIff(s: string, i: nat, depth: nat, j: nat)
    requires depth >= 1 && i <= j < |s| && s[j] == '}'
    ensures Close(s, i, depth) == Some(j) <==> Run(s[i..j], depth) == Some(1)
    decreases |s| - i
  {
    if i < j {
      var body := s[i..j];
      assert body[0] == s[i] && body[1..] == s[i + 1..j];
      if s[i] == '{' {
        CloseIff(s, i + 1, depth + 1, j);
      } else if s[i] == '}' && depth > 1 {
        CloseIff(s, i + 1, depth - 1, j);
      } else if s[i] != '}' {
        CloseIff(s, i + 1, depth, j);
      }
    } else {
      assert s[i..j] == "";
    }
  }

  /** The lines after the first without their indentation; a last line shorter than it only closes the block. */
  function Dedent(lines: seq<string>, lead: string): Option<string> {
    if lines == [] then Some("")
    else
      match Dedent(lines[1..], lead)
      case None => None
      case Some(rest) =>
        if lead <= lines[0] then Some("\n" + lines[0][|lead|..] + rest)
        else if lines[0] <= lead then Some(if |lines| == 1 then "" else "\n" + rest)
        else None
  }

  predicate Indented(line: string, lead: string) {
    lead <= line || line <= lead
  }

  /** Every line after the first starts with the indentation or is a part of it. */
  predicate LaterIndented(lines: seq<string>, lead: string) {
    forall k | 0 < k < |lines| :: Indented(lines[k], lead)
  }

  lemma {:induction false} DedentIff(lines: seq<string>, lead: string)
    ensures Dedent(lines, lead).Some? <==> forall k | 0 <= k < |lines| :: Indented(lines[k], lead)
  {
    if lines == [] {
    } else {
      DedentIff(lines[1..], lead);
      assert forall k | 0 < k < |lines| :: lines[k] == lines[1..][k - 1];
      assert forall k | 0 <= k < |lines[1..]| :: lines[1..][k] == lines[k + 1];
    }
  }

  // ---- Lines and margins ----

  lemma LineHasNoBreak(s: string, i: nat, depth: nat)
    requires i <= |s| && depth >= 1
    ensures '\n' !in s[i..LineEnd(s, i, depth, true).0]
  {
    hide LineEnd;
  }

  /** Looking for the closing brace line by line. */
  lemma {:induction false} CloseByLine(s: string, i: nat, depth: nat)
    requires i <= |s| && depth >= 1
    ensures var (end, next) := LineEnd(s, i, depth, true);
            Close(s, i, depth) == if end >= |s| then None else if s[end] == '}' then Some(end) else Close(s, end, next)
    decreases |s| - i
  {
    if i >= |s| || s[i] == '\n' || (s[i] == '}' && depth == 1) {
    } else {
      CloseByLine(s, i + 1, if s[i] == '{' then depth + 1 else if s[i] == '}' then depth - 1 else depth);
    }
  }

  lemma BlankTail(lead: string)
    requires lead != "" && AllBlank(lead)
    ensures AllBlank(lead[1..])
  {
  }

  /** How the indentation of a line compares with the line. */
  lemma {:induction false} MarginByLine(s: string, i: nat, lead: string, depth: nat)
    requires i <= |s| && depth >= 1 && AllBlank(lead)
    ensures var (end, next) := LineEnd(s, i, depth, true);
            var line, margin := s[i..end], MarginOf(s, i, lead, depth, true);
            if lead <= line then margin == Through(i + |lead|) && LineEnd(s, i + |lead|, depth, true) == (end, next)
            else if line <= lead then
              if end < |s| && s[end] == '}' then margin == Closed(end + 1)
              else margin == Through(end) && LineEnd(s, end, depth, true) == (end, next)
            else margin.Mismatch?
    decreases |lead|
  {
    var (end, next) := LineEnd(s, i, depth, true);
    var line := s[i..end];
    if lead == "" || i >= |s| || s[i] == '\n' || (s[i] == '}' && depth == 1) {
    } else {
      assert line[0] == s[i];
      if s[i] == lead[0] {
        assert IsBlank(s[i]);
        BlankTail(lead);
        MarginByLine(s, i + 1, lead[1..], depth);
        PrefixCons(lead, line);
        PrefixCons(line, lead);
        assert line[1..] == s[i + 1..end];
      } else {
        PrefixCons(lead, line);
        PrefixCons(line, lead);
      }
    }
  }

  lemma PrefixCons(a: string, b: string)
    requires a != "" && b != ""
    ensures a <= b <==> a[0] == b[0] && a[1..] <= b[1..]
  {
    if a[0] == b[0] && a[1..] <= b[1..] {
      assert forall k | 0 < k < |a| :: a[k] == a[1..][k - 1] == b[1..][k - 1] == b[k];
    }
    if a <= b {
      assert b[1..][..|a| - 1] == a[1..];
    }
  }

  // ---- read_block reads the reference ----

  /** From a newline inside a bracketed block. */
  ghost predicate ReadsRest(s: string, i: nat, lead: string, depth: nat)
    requires i < |s| && s[i] == '\n' && depth >= 1
  {
    match Close(s, i, depth)
    case None => ReadRest(s, i, lead, depth, true).Err?
    case Some(close) =>
      i < close
      && match Dedent(Lines(s[i + 1..close]), lead)
         case None => ReadRest(s, i, lead, depth, true).Err?
         case Some(text) => ReadRest(s, i, lead, depth, true) == Ok(Tail(text, close + 1))
  }

  lemma {:induction false} RestIsReference(s: string, i: nat, lead: string, depth: nat)
    requires i < |s| && s[i] == '\n' && depth >= 1 && AllBlank(lead)
    ensures ReadsRest(s, i, lead, depth)
    decreases |s| - i
  {
    var (end, next) := LineEnd(s, i + 1, depth, true);
    CloseByLine(s, i + 1, depth);
    if end >= |s| {
      RestUnclosed(s, i, lead, depth);
    } else if s[end] == '}' {
      RestLastLine(s, i, lead, depth);
    } else {
      RestIsReference(s, end, lead, next);
      RestLineMore(s, i, lead, depth);
    }
  }

  lemma RestUnclosed(s: string, i: nat, lead: string, depth: nat)
    requires i < |s| && s[i] == '\n' && depth >= 1 && AllBlank(lead)
    requires LineEnd(s, i + 1, depth, true).0 >= |s|
    ensures ReadRest(s, i, lead, depth, true).Err?
  {
    hide LineEnd, MarginOf, ReadRest, AllBlank;
    MarginByLine(s, i + 1, lead, depth);
    RestStep(s, i, lead, depth, true);
  }

  lemma RestLastLine(s: string, i: nat, lead: string, depth: nat)
    requires i < |s| && s[i] == '\n' && depth >= 1 && AllBlank(lead)
    requires var end := LineEnd(s, i + 1, depth, true).0; end < |s| && s[end] == '}'
    requires Close(s, i, depth) == Some(LineEnd(s, i + 1, depth, true).0)
    ensures ReadsRest(s, i, lead, depth)
  {
    hide LineEnd, MarginOf, ReadRest, AllBlank, Lines, Close;
    var (end, next) := LineEnd(s, i + 1, depth, true);
    var line := s[i + 1..end];
    MarginByLine(s, i + 1, lead, depth);
    RestStep(s, i, lead, depth, true);
    RestEnds(s, end, lead, next, true);
    LineHasNoBreak(s, i + 1, depth);
    LinesOne(line);
    DedentOne(line, lead);
    if lead <= line {
      assert s[i + 1 + |lead|..end] == line[|lead|..];
      assert "\n" + line[|lead|..] + "" == "\n" + line[|lead|..];
    }
  }

  lemma DedentOne(line: string, lead: string)
    ensures Dedent([line], lead) ==
            if lead <= line then Some("\n" + line[|lead|..]) else if line <= lead then Some("") else None
  {
    assert [line][1..] == [];
    assert Dedent([], lead) == Some("");
    if lead <= line {
      assert "\n" + line[|lead|..] + "" == "\n" + line[|lead|..];
    }
  }

  /** What reading a line adds to the lines after it. */
  lemma RestByLine(s: string, i: nat, lead: string, depth: nat)
    requires i < |s| && s[i] == '\n' && depth >= 1 && AllBlank(lead)
    requires var end := LineEnd(s, i + 1, depth, true).0; end < |s| && s[end] == '\n'
    ensures var (end, next) := LineEnd(s, i + 1, depth, true);
            var line := s[i + 1..end];
            ReadRest(s, i, lead, depth, true) ==
              if lead <= line then Prepend("\n" + line[|lead|..], ReadRest(s, end, lead, next, true))
              else if line <= lead then Prepend("\n", ReadRest(s, end, lead, next, true))
              else Err(BadIndent)
  {
    hide LineEnd, MarginOf, ReadRest, AllBlank, Prepend;
    var (end, next) := LineEnd(s, i + 1, depth, true);
    var line := s[i + 1..end];
    MarginByLine(s, i + 1, lead, depth);
    RestStep(s, i, lead, depth, true);
    if lead <= line {
      assert s[i + 1 + |lead|..end] == line[|lead|..];
    } else {
      assert s[end..end] == "" && "\n" + "" == "\n";
    }
  }

  lemma RestLineMore(s: string, i: nat, lead: string, depth: nat)
    requires i < |s| && s[i] == '\n' && depth >= 1 && AllBlank(lead)
    requires var (end, next) := LineEnd(s, i + 1, depth, true);
             end < |s| && s[end] == '\n' && Close(s, i, depth) == Close(s, end, next) && ReadsRest(s, end, lead, next)
    ensures ReadsRest(s, i, lead, depth)
  {
    hide LineEnd, ReadRest, AllBlank, Lines, Close, Dedent;
    RestByLine(s, i, lead, depth);
    var (end, next) := LineEnd(s, i + 1, depth, true);
    var line := s[i + 1..end];
    match Close(s, i, depth)
    case None =>
    case Some(close) =>
      var after := s[end + 1..close];
      CutLine(s, i + 1, end, close);
      LineHasNoBreak(s, i + 1, depth);
      LinesCons(line, after);
      DedentCons(line, Lines(after), lead);
  }

  lemma CutLine(s: string, start: nat, end: nat, close: nat)
    requires start <= end < close <= |s| && s[end] == '\n'
    ensures s[start..close] == s[start..end] + "\n" + s[end + 1..close]
  {
    assert s[end..end + 1] == "\n";
    assert s[start..close] == s[start..end] + s[end..end + 1] + s[end + 1..close];
  }

  lemma DedentCons(line: string, rest: seq<string>, lead: string)
    requires rest != []
    ensures Dedent([line] + rest, lead) ==
            match Dedent(rest, lead)
            case None => None
            case Some(text) =>
              if lead <= line then Some("\n" + line[|lead|..] + text)
              else if line <= lead then Some("\n" + text)
              else None
  {
    assert ([line] + rest)[1..] == rest;
  }

  /**
   What read_block reads of a bracketed block: it succeeds exactly when a brace closes the
   block and every line after the first starts with the first line's indentation or is a part
   of it; it then stops just past that brace with the lines, indentation taken off.
   */
  lemma BracedBlockIs(s: string, start: nat, lead: string)
    requires start <= |s| && AllBlank(lead)
    ensures var r, close := ReadLines(s, start, lead, true), Close(s, start, 1);
            && (r.Ok? <==> close.Some? && LaterIndented(Lines(s[start..close.value]), lead))
            && (r.Ok? ==>
                  var lines := Lines(s[start..close.value]);
                  && r.value.pos == close.value + 1
                  && Dedent(lines[1..], lead).Some?
                  && r.value.text == lines[0] + Dedent(lines[1..], lead).value)
  {
    var (end, depth) := LineEnd(s, start, 1, true);
    CloseByLine(s, start, 1);
    if end >= |s| {
      FirstLineUnclosed(s, start, lead);
    } else if s[end] == '}' {
      FirstLineCloses(s, start, lead);
    } else {
      RestIsReference(s, end, lead, depth);
      FirstLineMore(s, start, lead);
    }
  }

  lemma FirstLineUnclosed(s: string, start: nat, lead: string)
    requires start <= |s| && LineEnd(s, start, 1, true).0 >= |s|
    ensures ReadLines(s, start, lead, true).Err?
  {
    hide LineEnd;
  }

  lemma FirstLineCloses(s: string, start: nat, lead: string)
    requires start <= |s|
    requires var end := LineEnd(s, start, 1, true).0; end < |s| && s[end] == '}'
    ensures var end := LineEnd(s, start, 1, true).0;
            && Lines(s[start..end]) == [s[start..end]]
            && Dedent([s[start..end]][1..], lead) == Some("")
            && ReadLines(s, start, lead, true) == Ok(Tail(s[start..end] + "", end + 1))
  {
    hide LineEnd, Lines;
    LineHasNoBreak(s, start, 1);
    LinesOne(s[start..LineEnd(s, start, 1, true).0]);
  }

  lemma FirstLineMore(s: string, start: nat, lead: string)
    requires start <= |s|
    requires var (end, depth) := LineEnd(s, start, 1, true);
             end < |s| && s[end] == '\n' && Close(s, start, 1) == Close(s, end, depth) && ReadsRest(s, end, lead, depth)
    ensures var r, close := ReadLines(s, start, lead, true), Close(s, start, 1);
            && (close.None? ==> r.Err?)
            && (close.Some? ==>
                  var lines := Lines(s[start..close.value]);
                  && (r.Ok? <==> Dedent(lines[1..], lead).Some?)
                  && (r.Ok? <==> LaterIndented(lines, lead))
                  && (r.Ok? ==> r.value == Tail(lines[0] + Dedent(lines[1..], lead).value, close.value + 1)))
  {
    hide LineEnd, Lines, ReadRest, Close, Dedent, Indented;
    var (end, depth) := LineEnd(s, start, 1, true);
    match Close(s, start, 1)
    case None =>
    case Some(close) =>
      var line, after := s[start..end], s[end + 1..close];
      CutLine(s, start, end, close);
      LineHasNoBreak(s, start, 1);
      LinesCons(line, after);
      var lines := Lines(s[start..close]);
      assert lines[1..] == Lines(after);
      DedentIff(lines[1..], lead);
      assert forall k | 0 < k < |lines| :: lines[k] == lines[1..][k - 1];
      assert forall k | 0 <= k < |lines[1..]| :: lines[1..][k] == lines[k + 1];
  }

  // ---- What a block that cannot be read reports ----

  predicate AllIndented(lines: seq<string>, lead: string) {
    forall k | 0 <= k < |lines| :: Indented(lines[k], lead)
  }

  lemma AllIndentedCons(line: string, rest: seq<string>, lead: string)
    ensures AllIndented([line] + rest, lead) <==> Indented(line, lead) && AllIndented(rest, lead)
  {
    if AllIndented([line] + rest, lead) {
      assert ([line] + rest)[0] == line;
      assert forall k | 0 <= k < |rest| :: rest[k] == ([line] + rest)[k + 1];
    }
  }

  /** Where reading from a position stops at the latest. */
  function Until(s: string, i: nat, depth: nat): nat
    requires depth >= 1
  {
    match Close(s, i, depth)
    case None => |s|
    case Some(close) => close
  }

  /** From a newline inside a bracketed block. */
  ghost predicate Reports(s: string, i: nat, lead: string, depth: nat)
    requires i < |s| && s[i] == '\n' && depth >= 1
  {
    && i < Until(s, i, depth) <= |s|
    && (!AllIndented(Lines(s[i + 1..Until(s, i, depth)]), lead) ==> ReadRest(s, i, lead, depth, true) == Err(BadIndent))
    && (AllIndented(Lines(s[i + 1..Until(s, i, depth)]), lead) && Close(s, i, depth).None? ==>
          ReadRest(s, i, lead, depth, true) == Err(NoClose))
  }

  lemma {:induction false} RestReports(s: string, i: nat, lead: string, depth: nat)
    requires i < |s| && s[i] == '\n' && depth >= 1 && AllBlank(lead)
    ensures Reports(s, i, lead, depth)
    decreases |s| - i
  {
    var (end, next) := LineEnd(s, i + 1, depth, true);
    CloseByLine(s, i + 1, depth);
    if end < |s| && s[end] == '\n' {
      RestReports(s, end, lead, next);
      MoreReports(s, i, lead, depth);
    } else {
      LastReports(s, i, lead, depth);
    }
  }

  lemma LastReports(s: string, i: nat, lead: string, depth: nat)
    requires i < |s| && s[i] == '\n' && depth >= 1 && AllBlank(lead)
    requires var end := LineEnd(s, i + 1, depth, true).0;
             if end < |s| then Close(s, i, depth) == Some(end) && s[end] == '}' else Close(s, i, depth) == None
    ensures Reports(s, i, lead, depth)
  {
    hide LineEnd, MarginOf, ReadRest, AllBlank, Lines, Close, AllIndented;
    var end := LineEnd(s, i + 1, depth, true).0;
    var line := s[i + 1..end];
    MarginByLine(s, i + 1, lead, depth);
    RestStep(s, i, lead, depth, true);
    LineHasNoBreak(s, i + 1, depth);
    LinesOne(line);
    AllIndentedCons(line, [], lead);
    assert [line] + [] == [line] && AllIndented([], lead) by { NoneIndented(lead); }
  }

  lemma NoneIndented(lead: string)
    ensures AllIndented([], lead)
  {
  }

  lemma MoreReports(s: string, i: nat, lead: string, depth: nat)
    requires i < |s| && s[i] == '\n' && depth >= 1 && AllBlank(lead)
    requires var (end, next) := LineEnd(s, i + 1, depth, true);
             end < |s| && s[end] == '\n' && Close(s, i, depth) == Close(s, end, next) && Reports(s, end, lead, next)
    ensures Reports(s, i, lead, depth)
  {
    hide LineEnd, ReadRest, AllBlank, Lines, Close, AllIndented;
    RestByLine(s, i, lead, depth);
    var (end, next) := LineEnd(s, i + 1, depth, true);
    var line, until := s[i + 1..end], Until(s, i, depth);
    CutLine(s, i + 1, end, until);
    LineHasNoBreak(s, i + 1, depth);
    LinesCons(line, s[end + 1..until]);
    AllIndentedCons(line, Lines(s[end + 1..until]), lead);
  }

  /**
   Which error a bracketed block that cannot be read is. A line up to the closing brace, or to the
   end of the text when there is none, that neither starts with the first line's indentation nor
   is a part of it is a bad indent; when there is no such line, a missing brace is reported.
   */
  lemma BracedBlockErrorIff(s: string, start: nat, lead: string)
    requires start <= |s| && AllBlank(lead)
    ensures start <= Until(s, start, 1) <= |s|
    ensures var r, lines := ReadLines(s, start, lead, true), Lines(s[start..Until(s, start, 1)]);
            && (r == Err(BadIndent) <==> !LaterIndented(lines, lead))
            && (r == Err(NoClose) <==> LaterIndented(lines, lead) && Close(s, start, 1).None?)
  {
    var (end, depth) := LineEnd(s, start, 1, true);
    CloseByLine(s, start, 1);
    BracedBlockIs(s, start, lead);
    var until := Until(s, start, 1);
    if end < |s| && s[end] == '\n' {
      RestReports(s, end, lead, depth);
      FirstReports(s, start, lead);
    } else {
      OnlyLineReports(s, start, lead);
    }
  }

  lemma FirstReports(s: string, start: nat, lead: string)
    requires start <= |s|
    requires var (end, depth) := LineEnd(s, start, 1, true);
             end < |s| && s[end] == '\n' && Close(s, start, 1) == Close(s, end, depth) && Reports(s, end, lead, depth)
    ensures var r, until := ReadLines(s, start, lead, true), Until(s, start, 1);
            && start <= until <= |s|
            && (!LaterIndented(Lines(s[start..until]), lead) ==> r == Err(BadIndent))
            && (LaterIndented(Lines(s[start..until]), lead) && Close(s, start, 1).None? ==> r == Err(NoClose))
  {
    hide LineEnd, Lines, ReadRest, Close, Indented;
    var end := LineEnd(s, start, 1, true).0;
    var line, until := s[start..end], Until(s, start, 1);
    CutLine(s, start, end, until);
    LineHasNoBreak(s, start, 1);
    LinesCons(line, s[end + 1..until]);
    LaterOfCons(line, Lines(s[end + 1..until]), lead);
  }

  lemma LaterOfCons(line: string, rest: seq<string>, lead: string)
    ensures LaterIndented([line] + rest, lead) <==> AllIndented(rest, lead)
  {
    var lines := [line] + rest;
    assert forall k | 0 <= k < |rest| :: rest[k] == lines[k + 1];
    assert forall k | 0 < k < |lines| :: lines[k] == rest[k - 1];
  }

  lemma OnlyLineReports(s: string, start: nat, lead: string)
    requires start <= |s|
    requires var end := LineEnd(s, start, 1, true).0;
             if end < |s| then Close(s, start, 1) == Some(end) && s[end] == '}' else Close(s, start, 1) == None
    ensures var end := LineEnd(s, start, 1, true).0;
            Until(s, start, 1) == end && start <= end <= |s| && LaterIndented(Lines(s[start..end]), lead)
    ensures Close(s, start, 1).None? ==> ReadLines(s, start, lead, true) == Err(NoClose)
  {
    hide LineEnd, Lines, Close;
    LineHasNoBreak(s, start, 1);
    LinesOne(s[start..LineEnd(s, start, 1, true).0]);
  }
}
