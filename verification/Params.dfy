/**
 The two scanners that read the arguments of a call: read_paramsStr finds the extent of
 the bracketed text, and read_params splits it into parameters. Both are loops over an
 index; each is proved against a recursive specification, and the two specifications are
 proved to stop at the same bracket. The arguments hold no '@': comments inside calls are
 not part of this model.
 */
module Params {
  import opened Quoted
  import opened Results
  import opened Text

  /** Whether a position is inside a quoted section, and which mark closes it. */
  datatype Quoting = Unquoted | Within(mark: char)

  datatype ParamError = UnknownBracket | NoClose | MissingParam

  /** One parameter as read: its text, its number of quoted sections, where it ends. */
  datatype Scan = Scan(param: string, sections: nat, stop: nat)

  /** The parameters of a call and the position just past its close bracket. */
  datatype Parsed = Parsed(params: seq<string>, next: nat)

  predicate IsOpen(c: char) {
    c == '<' || c == '(' || c == '[' || c == '{'
  }

  function Closing(open: char): char {
    if open == '<' then '>'
    else if open == '(' then ')'
    else if open == '[' then ']'
    else '}'
  }

  predicate IsQuote(c: char) {
    c == '\'' || c == '"' || c == '`'
  }

  /** A backslash followed by a character that both scanners treat as escaped. */
  predicate EscapeAt(s: string, i: nat) {
    i + 1 < |s| && s[i] == '\\' && (s[i + 1] == 'n' || s[i + 1] == 't' || s[i + 1] == '\\' || IsQuote(s[i + 1]))
  }

  predicate EscapedSeparatorAt(s: string, i: nat, sep: char) {
    i + 1 < |s| && s[i] == '\\' && s[i + 1] == sep
  }

  /** Characters that make read_paramsStr ask for the text to be parsed first. */
  predicate IsCode(c: char) {
    c == '@' || c == '$' || c == '(' || c == '{' || c == '`'
  }

  predicate WellQuoted(q: Quoting) {
    q.Within? ==> IsQuote(q.mark)
  }

  function SkipBlanks(s: string, i: nat): (j: nat)
    requires i <= |s|
    ensures i <= j <= |s|
    ensures AllBlank(s[i..j])
    ensures j < |s| ==> !IsBlank(s[j])
    decreases |s| - i
  {
    if i < |s| && IsBlank(s[i]) then
      var j := SkipBlanks(s, i + 1);
      assert s[i..j] == [s[i]] + s[i + 1..j];
      j
    else i
  }

  /** Newlines between parameter characters, each with the blanks that follow it. */
  function SkipBreaks(s: string, i: nat): (j: nat)
    ensures i <= j
    ensures i <= |s| ==> j <= |s|
    ensures At(s, j) != '\n'
    decreases |s| - i
  {
    if At(s, i) == '\n' then SkipBreaks(s, SkipBlanks(s, i + 1)) else i
  }

  predicate IsSpace(c: char) {
    c == ' ' || c == '\t' || c == '\n'
  }

  function SkipSpace(s: string, i: nat): (j: nat)
    ensures i <= j
    ensures i <= |s| ==> j <= |s|
    ensures j < |s| ==> !IsSpace(s[j])
    decreases |s| - i
  {
    if i < |s| && IsSpace(s[i]) then SkipSpace(s, i + 1) else i
  }

  /**
   Reference definition: the position of the bracket that closes the call, seen from i at
   a bracket depth and a quoting state. Escaped characters and quoted brackets do not count.
   */
  function FindClose(s: string, i: nat, open: char, depth: nat, q: Quoting): (r: Option<nat>)
    ensures r.Some? ==> i <= r.value < |s| && s[r.value] == Closing(open)
    decreases |s| - i
  {
    if i >= |s| then None
    else if q.Within? then
      if s[i] == q.mark then FindClose(s, i + 1, open, depth, Unquoted)
      else if EscapeAt(s, i) then FindClose(s, i + 2, open, depth, q)
      else FindClose(s, i + 1, open, depth, q)
    else if s[i] == Closing(open) then
      if depth <= 1 then Some(i) else FindClose(s, i + 1, open, depth - 1, q)
    else if s[i] == open then FindClose(s, i + 1, open, depth + 1, q)
    else if IsQuote(s[i]) then FindClose(s, i + 1, open, depth, Within(s[i]))
    else if EscapeAt(s, i) || EscapedSeparatorAt(s, i, ',') then FindClose(s, i + 2, open, depth, q)
    else FindClose(s, i + 1, open, depth, q)
  }

  /** Whether an unescaped code character lies before the close bracket. */
  function HasCode(s: string, i: nat, open: char, depth: nat, q: Quoting): bool
    decreases |s| - i
  {
    if i >= |s| then false
    else if q.Within? then
      if s[i] == q.mark then IsCode(s[i]) || HasCode(s, i + 1, open, depth, Unquoted)
      else if EscapeAt(s, i) then HasCode(s, i + 2, open, depth, q)
      else IsCode(s[i]) || HasCode(s, i + 1, open, depth, q)
    else if s[i] == Closing(open) then
      depth > 1 && HasCode(s, i + 1, open, depth - 1, q)
    else if s[i] == open then IsCode(s[i]) || HasCode(s, i + 1, open, depth + 1, q)
    else if IsQuote(s[i]) then HasCode(s, i + 1, open, depth, Within(s[i]))
    else if EscapeAt(s, i) || EscapedSeparatorAt(s, i, ',') then HasCode(s, i + 2, open, depth, q)
    else IsCode(s[i]) || HasCode(s, i + 1, open, depth, q)
  }

  /** A call, a reference or a bracket that opens code stands before a position. */
  predicate CodeIn(s: string, i: nat, close: nat) {
    exists k | i <= k < close && k < |s| :: s[k] in {'@', '$', '(', '{', '`'}
  }

  lemma CodeInStep(s: string, i: nat, close: nat)
    requires i < close <= |s|
    ensures CodeIn(s, i, close) <==> IsCode(s[i]) || CodeIn(s, i + 1, close)
  {
  }

  /**
   Arguments without escapes are asked to be parsed first exactly when a code character stands
   before their close bracket, in quotes or not.
   */
  lemma {:induction false} HasCodeIff(s: string, i: nat, open: char, depth: nat, q: Quoting, close: nat)
    requires IsOpen(open) && WellQuoted(q) && FindClose(s, i, open, depth, q) == Some(close)
    requires forall k | i <= k < close :: s[k] != '\\'
    ensures HasCode(s, i, open, depth, q) <==> CodeIn(s, i, close)
    decreases |s| - i
  {
    if i == close && q.Unquoted? && depth <= 1 {
    } else {
      CodeInStep(s, i, close);
      hide CodeIn;
      if q.Within? {
        HasCodeIff(s, i + 1, open, depth, if s[i] == q.mark then Unquoted else q, close);
      } else if s[i] == Closing(open) {
        HasCodeIff(s, i + 1, open, depth - 1, q, close);
      } else if s[i] == open {
        HasCodeIff(s, i + 1, open, depth + 1, q, close);
      } else if IsQuote(s[i]) {
        HasCodeIff(s, i + 1, open, depth, Within(s[i]), close);
        if s[i] == '`' {
          BacktickIsSeen(s, i + 1, open, depth, close);
        }
      } else {
        HasCodeIff(s, i + 1, open, depth, q, close);
      }
    }
  }

  /** The mark that closes a section in backticks is one. */
  lemma {:induction false} BacktickIsSeen(s: string, i: nat, open: char, depth: nat, close: nat)
    requires IsOpen(open) && FindClose(s, i, open, depth, Within('`')) == Some(close)
    requires forall k | i <= k < close :: s[k] != '\\'
    ensures HasCode(s, i, open, depth, Within('`'))
    decreases |s| - i
  {
    if s[i] == '`' {
    } else {
      BacktickIsSeen(s, i + 1, open, depth, close);
    }
  }

  lemma {:induction false} BlanksAreNeutral(s: string, i: nat, open: char, depth: nat, q: Quoting)
    requires IsOpen(open) && WellQuoted(q) && i <= |s|
    ensures FindClose(s, SkipBlanks(s, i), open, depth, q) == FindClose(s, i, open, depth, q)
    ensures HasCode(s, SkipBlanks(s, i), open, depth, q) == HasCode(s, i, open, depth, q)
    decreases |s| - i
  {
    if i >= |s| || !IsBlank(s[i]) {
    } else {
      BlanksAreNeutral(s, i + 1, open, depth, q);
    }
  }

  lemma {:induction false} BreaksAreNeutral(s: string, i: nat, open: char, depth: nat, q: Quoting)
    requires IsOpen(open) && WellQuoted(q)
    ensures FindClose(s, SkipBreaks(s, i), open, depth, q) == FindClose(s, i, open, depth, q)
    ensures HasCode(s, SkipBreaks(s, i), open, depth, q) == HasCode(s, i, open, depth, q)
    decreases |s| - i
  {
    if At(s, i) != '\n' {
    } else {
      BlanksAreNeutral(s, i + 1, open, depth, q);
      BreaksAreNeutral(s, SkipBlanks(s, i + 1), open, depth, q);
    }
  }

  lemma {:induction false} SpaceIsNeutral(s: string, i: nat, open: char, depth: nat, q: Quoting)
    requires IsOpen(open) && WellQuoted(q)
    ensures FindClose(s, SkipSpace(s, i), open, depth, q) == FindClose(s, i, open, depth, q)
    decreases |s| - i
  {
    if i >= |s| || !IsSpace(s[i]) {
    } else {
      SpaceIsNeutral(s, i + 1, open, depth, q);
    }
  }

  /** The inner while loop of both scanners. */
  method SkipBreaksLoop(inStr: string, start: nat) returns (linePos: nat)
    ensures linePos == SkipBreaks(inStr, start)
  {
    linePos := start;
    while At(inStr, linePos) == '\n'
      invariant linePos <= |inStr| || linePos == start
      invariant SkipBreaks(inStr, linePos) == SkipBreaks(inStr, start)
      decreases |inStr| - linePos
    {
      linePos := linePos + 1;
      ghost var afterNewline := linePos;
      while linePos < |inStr| && IsBlank(inStr[linePos])
        invariant afterNewline <= linePos <= |inStr|
        invariant SkipBlanks(inStr, linePos) == SkipBlanks(inStr, afterNewline)
      {
        linePos := linePos + 1;
      }
    }
  }

  /** No '@' from a call's open bracket to its close bracket, or to the end when it has none. */
  predicate NoAtInArguments(s: string, start: nat) {
    var end := match FindClose(s, start + 1, At(s, start), 1, Unquoted)
               case None => |s|
               case Some(close) => close;
    forall k | start <= k < end :: s[k] != '@'
  }

  /** An '@' among the arguments always asks for them to be parsed first. */
  lemma {:induction false} AtIsCode(s: string, i: nat, open: char, depth: nat, q: Quoting, k: nat)
    requires IsOpen(open) && WellQuoted(q)
    requires FindClose(s, i, open, depth, q).Some? && i <= k < FindClose(s, i, open, depth, q).value
    requires s[k] == '@'
    ensures HasCode(s, i, open, depth, q)
    decreases |s| - i
  {
    if i == k {
    } else {
      if q.Within? {
        if s[i] == q.mark {
          AtIsCode(s, i + 1, open, depth, Unquoted, k);
        } else {
          AtIsCode(s, if EscapeAt(s, i) then i + 2 else i + 1, open, depth, q, k);
        }
      } else if IsQuote(s[i]) {
        AtIsCode(s, i + 1, open, depth, Within(s[i]), k);
      } else if EscapeAt(s, i) || EscapedSeparatorAt(s, i, ',') {
        AtIsCode(s, i + 2, open, depth, q, k);
      } else {
        AtIsCode(s, i + 1, open,
          if s[i] == open then depth + 1 else if s[i] == Closing(open) then depth - 1 else depth, q, k);
      }
    }
  }

  /** How the reference definition moves inside a quoted section. */
  lemma QuotedSteps(s: string, i: nat, open: char, depth: nat, mark: char)
    ensures i >= |s| ==> FindClose(s, i, open, depth, Within(mark)) == None
    ensures At(s, i) == mark && i < |s| ==>
              && FindClose(s, i, open, depth, Within(mark)) == FindClose(s, i + 1, open, depth, Unquoted)
              && HasCode(s, i, open, depth, Within(mark)) == (IsCode(mark) || HasCode(s, i + 1, open, depth, Unquoted))
    ensures At(s, i) != mark && EscapeAt(s, i) ==>
              && FindClose(s, i, open, depth, Within(mark)) == FindClose(s, i + 2, open, depth, Within(mark))
              && HasCode(s, i, open, depth, Within(mark)) == HasCode(s, i + 2, open, depth, Within(mark))
    ensures i < |s| && At(s, i) != mark && !EscapeAt(s, i) ==>
              && FindClose(s, i, open, depth, Within(mark)) == FindClose(s, i + 1, open, depth, Within(mark))
              && HasCode(s, i, open, depth, Within(mark)) ==
                  (IsCode(s[i]) || HasCode(s, i + 1, open, depth, Within(mark)))
  {
  }

  /** The quoted-section loop of read_paramsStr, from just past the opening mark. */
  method SkipQuoted(inStr: string, start: nat, closeChar: char, parseBefore: bool, ghost open: char, ghost depth: nat)
    returns (ok: bool, linePos: nat, parseParams: bool)
    requires start <= |inStr| && IsQuote(closeChar) && IsOpen(open)
    ensures start <= linePos
    ensures ok ==> linePos < |inStr| && inStr[linePos] == closeChar
    ensures ok ==>
              FindClose(inStr, linePos + 1, open, depth, Unquoted) ==
              FindClose(inStr, start, open, depth, Within(closeChar))
    ensures ok ==> ((parseBefore || HasCode(inStr, start, open, depth, Within(closeChar))) ==
                    (parseParams || IsCode(closeChar) || HasCode(inStr, linePos + 1, open, depth, Unquoted)))
    ensures !ok ==> FindClose(inStr, start, open, depth, Within(closeChar)) == None
  {
    hide FindClose, HasCode;
    linePos, parseParams := start, parseBefore;
    while At(inStr, linePos) != closeChar
      invariant start <= linePos <= |inStr|
      invariant FindClose(inStr, linePos, open, depth, Within(closeChar)) ==
                  FindClose(inStr, start, open, depth, Within(closeChar))
      invariant (parseBefore || HasCode(inStr, start, open, depth, Within(closeChar)))
             == (parseParams || HasCode(inStr, linePos, open, depth, Within(closeChar)))
      decreases |inStr| - linePos
    {
      QuotedSteps(inStr, linePos, open, depth, closeChar);
      if EscapeAt(inStr, linePos) {
        linePos := linePos + 2;
        continue;
      }
      if IsCode(At(inStr, linePos)) {
        parseParams := true;
      }
      BreaksAreNeutral(inStr, linePos + 1, open, depth, Within(closeChar));
      linePos := SkipBreaksLoop(inStr, linePos + 1);
      if linePos >= |inStr| {
        QuotedSteps(inStr, linePos, open, depth, closeChar);
        return false, linePos, parseParams;
      }
    }
    QuotedSteps(inStr, linePos, open, depth, closeChar);
    return true, linePos, parseParams;
  }

  /** How the reference definition moves at an unquoted position, case by case. */
  lemma UnquotedSteps(s: string, i: nat, open: char, depth: nat)
    requires IsOpen(open) && depth >= 1
    requires At(s, i) == Closing(open) ==> depth > 1
    ensures i >= |s| ==> FindClose(s, i, open, depth, Unquoted) == None
    ensures IsQuote(At(s, i)) ==>
              && FindClose(s, i, open, depth, Unquoted) == FindClose(s, i + 1, open, depth, Within(At(s, i)))
              && HasCode(s, i, open, depth, Unquoted) == HasCode(s, i + 1, open, depth, Within(At(s, i)))
    ensures EscapeAt(s, i) || EscapedSeparatorAt(s, i, ',') ==>
              && FindClose(s, i, open, depth, Unquoted) == FindClose(s, i + 2, open, depth, Unquoted)
              && HasCode(s, i, open, depth, Unquoted) == HasCode(s, i + 2, open, depth, Unquoted)
    ensures i < |s| && !IsQuote(s[i]) && !EscapeAt(s, i) && !EscapedSeparatorAt(s, i, ',') ==>
              var d := if s[i] == open then depth + 1 else if s[i] == Closing(open) then depth - 1 else depth;
              && FindClose(s, i, open, depth, Unquoted) == FindClose(s, i + 1, open, d, Unquoted)
              && HasCode(s, i, open, depth, Unquoted) == (IsCode(s[i]) || HasCode(s, i + 1, open, d, Unquoted))
  {
  }

  /** One turn of read_paramsStr's loop at a position that is not the final bracket. */
  method StepStr(inStr: string, start: nat, open: char, depthBefore: nat, parseBefore: bool)
    returns (ok: bool, linePos: nat, depth: nat, parseParams: bool)
    requires IsOpen(open) && start <= |inStr| && depthBefore >= 1
    requires At(inStr, start) == Closing(open) ==> depthBefore > 1
    ensures ok ==> start < linePos <= |inStr| && depth >= 1
    ensures ok ==>
              FindClose(inStr, start, open, depthBefore, Unquoted) ==
              FindClose(inStr, linePos, open, depth, Unquoted)
    ensures ok ==> ((parseBefore || HasCode(inStr, start, open, depthBefore, Unquoted)) ==
                    (parseParams || HasCode(inStr, linePos, open, depth, Unquoted)))
    ensures !ok ==> FindClose(inStr, start, open, depthBefore, Unquoted) == None
  {
    hide FindClose, HasCode, SkipBreaks;
    UnquotedSteps(inStr, start, open, depthBefore);
    linePos, depth, parseParams := start, depthBefore, parseBefore;
    if At(inStr, linePos) == open {
      depth := depth + 1;
    } else if At(inStr, linePos) == Closing(open) {
      depth := depth - 1;
    }

    if IsQuote(At(inStr, linePos)) {
      ok, linePos, parseParams := SkipQuoted(inStr, linePos + 1, inStr[linePos], parseParams, open, depth);
      if !ok {
        return;
      }
    } else if EscapeAt(inStr, linePos) || EscapedSeparatorAt(inStr, linePos, ',') {
      return true, linePos + 2, depth, parseParams;
    }

    if IsCode(At(inStr, linePos)) {
      parseParams := true;
    }
    BreaksAreNeutral(inStr, linePos + 1, open, depth, Unquoted);
    linePos := SkipBreaksLoop(inStr, linePos + 1);
    if linePos >= |inStr| {
      UnquotedSteps(inStr, linePos, open, depth);
    }
    ok := linePos < |inStr|;
  }

  /**
   read_paramsStr: from an open bracket to its match. Succeeds exactly when FindClose does,
   stops just past that bracket, appends the bracketed text, and raises the parse flag
   exactly when an unescaped code character lies in between.
   */
  method ReadParamsStr(inStr: string, start: nat, before: string, parseBefore: bool)
    returns (error: Option<ParamError>, linePos: nat, paramsStr: string, parseParams: bool)
    requires NoAtInArguments(inStr, start)
    ensures error == Some(UnknownBracket) <==> !IsOpen(At(inStr, start))
    ensures error == None ==>
              && FindClose(inStr, start + 1, At(inStr, start), 1, Unquoted) == Some(linePos - 1)
              && start < linePos <= |inStr|
              && paramsStr == before + inStr[start..linePos]
              && parseParams == (parseBefore || HasCode(inStr, start + 1, At(inStr, start), 1, Unquoted))
    ensures error == Some(NoClose) ==>
              FindClose(inStr, start + 1, At(inStr, start), 1, Unquoted) == None
    ensures error != Some(MissingParam)
  {
    linePos, paramsStr, parseParams := start, before, parseBefore;
    if !IsOpen(At(inStr, linePos)) {
      return Some(UnknownBracket), linePos, paramsStr, parseParams;
    }
    var open := inStr[linePos];
    linePos := linePos + 1;
    var depth: nat := 1;

    while !(depth == 1 && At(inStr, linePos) == Closing(open))
      invariant start < linePos <= |inStr|
      invariant depth >= 1
      invariant FindClose(inStr, linePos, open, depth, Unquoted) == FindClose(inStr, start + 1, open, 1, Unquoted)
      invariant (parseBefore || HasCode(inStr, start + 1, open, 1, Unquoted)) ==
                (parseParams || HasCode(inStr, linePos, open, depth, Unquoted))
      decreases |inStr| - linePos
    {
      var ok;
      ok, linePos, depth, parseParams := StepStr(inStr, linePos, open, depth, parseParams);
      if !ok {
        return Some(NoClose), linePos, paramsStr, parseParams;
      }
    }
    linePos := linePos + 1;
    paramsStr := paramsStr + inStr[start..linePos];
    return None, linePos, paramsStr, parseParams;
  }

  /** A character of a parameter after unescaping, and the position of the next one. */
  datatype Decoded = Decoded(c: char, next: nat)

  /**
   The character read_params adds at i: an escaped n or t is a newline or tab; another
   escaped character, or an escaped separator outside quotes, stands for itself; and after
   any of the latter or a plain character the breaks that follow are skipped.
   */
  function Decode(s: string, i: nat, q: Quoting, sep: char): (d: Decoded)
    requires i < |s|
    ensures i < d.next <= |s|
  {
    if EscapeAt(s, i) && s[i + 1] == 'n' then Decoded('\n', i + 2)
    else if EscapeAt(s, i) && s[i + 1] == 't' then Decoded('\t', i + 2)
    else
      var k := if EscapeAt(s, i) || (q.Unquoted? && EscapedSeparatorAt(s, i, sep)) then i + 1 else i;
      Decoded(s[k], SkipBreaks(s, k + 1))
  }

  /** The bracket depth after an unquoted character. */
  function DepthAfter(c: char, open: char, depth: nat): (d: nat)
    requires IsOpen(open) && depth >= 1
    requires c == Closing(open) ==> depth > 1
    ensures d >= 1
  {
    if c == open then depth + 1 else if c == Closing(open) then depth - 1 else depth
  }

  predicate EndsParam(c: char, open: char, sep: char, depth: nat) {
    depth <= 1 && (c == Closing(open) || (c == sep && c != open))
  }

  /**
   One parameter as read_params reads it from i, ending at a separator or close bracket of
   the outermost depth. None when the text runs out.
   */
  function ParamFrom(s: string, i: nat, open: char, sep: char, depth: nat, q: Quoting, param: string,
                     sections: nat): (r: Option<Scan>)
    requires IsOpen(open) && depth >= 1
    ensures r.Some? ==> i <= r.value.stop < |s| && (s[r.value.stop] == sep || s[r.value.stop] == Closing(open))
    decreases |s| - i
  {
    if i >= |s| then None
    else if q.Within? then
      if s[i] == q.mark then
        ParamFrom(s, i + 1, open, sep, depth, Unquoted, param + [s[i]], sections)
      else
        var d := Decode(s, i, q, sep);
        ParamFrom(s, d.next, open, sep, depth, q, param + [d.c], sections)
    else if IsQuote(s[i]) then
      ParamFrom(s, i + 1, open, sep, depth, Within(s[i]), param + [s[i]], sections + 1)
    else if EndsParam(s[i], open, sep, depth) then Some(Scan(param, sections, i))
    else
      var d := Decode(s, i, q, sep);
      ParamFrom(s, d.next, open, sep, DepthAfter(s[i], open, depth), q, param + [d.c], sections)
  }

  /** The parameter after read_params has taken off the quotes of a single quoted section. */
  function Finish(scan: Scan): string {
    if scan.sections == 1 then Unquote(scan.param) else scan.param
  }

  /** What read_params does from just past the open bracket or a separator. */
  function ParamsFrom(s: string, i: nat, open: char, sep: char, before: seq<string>): (r: Result<Parsed, ParamError>)
    requires IsOpen(open)
    ensures r.Ok? ==> i < r.value.next <= |s|
    ensures r.Ok? ==> |before| <= |r.value.params|
    ensures r != Err(UnknownBracket)
    decreases |s| - i
  {
    var j := SkipSpace(s, i);
    if j >= |s| then Err(NoClose)
    else if s[j] == Closing(open) && before == [] then Ok(Parsed([], j + 1))
    else
      match ParamFrom(s, j, open, sep, 1, Unquoted, "", 0)
      case None => Err(NoClose)
      case Some(scan) =>
        var param := Finish(scan);
        if sep != ';' && param == "" then Err(MissingParam)
        else if s[scan.stop] == sep then ParamsFrom(s, scan.stop + 1, open, sep, before + [param])
        else Ok(Parsed(before + [param], scan.stop + 1))
  }

  function ReadParamsSpec(s: string, start: nat, sep: char): Result<Parsed, ParamError> {
    if !IsOpen(At(s, start)) then Err(UnknownBracket)
    else ParamsFrom(s, start + 1, s[start], sep, [])
  }

  /** Decoding a character moves the reference definition along with it. */
  lemma DecodeQuotedIsNeutral(s: string, i: nat, open: char, depth: nat, mark: char)
    requires IsOpen(open) && IsQuote(mark) && i < |s| && s[i] != mark
    ensures FindClose(s, i, open, depth, Within(mark)) ==
              FindClose(s, Decode(s, i, Within(mark), ',').next, open, depth, Within(mark))
  {
    hide FindClose, SkipBreaks;
    QuotedSteps(s, i, open, depth, mark);
    BreaksAreNeutral(s, i + 1, open, depth, Within(mark));
    BreaksAreNeutral(s, i + 2, open, depth, Within(mark));
  }

  lemma DecodePlainIsNeutral(s: string, i: nat, open: char, depth: nat)
    requires IsOpen(open) && depth >= 1 && i < |s| && !IsQuote(s[i])
    requires s[i] == Closing(open) ==> depth > 1
    ensures FindClose(s, i, open, depth, Unquoted) ==
            FindClose(s, Decode(s, i, Unquoted, ',').next, open, DepthAfter(s[i], open, depth), Unquoted)
  {
    hide FindClose, SkipBreaks;
    BreaksAreNeutral(s, i + 1, open, DepthAfter(s[i], open, depth), Unquoted);
    BreaksAreNeutral(s, i + 2, open, depth, Unquoted);
    UnquotedSteps(s, i, open, depth);
  }

  /** A parameter ends exactly where the reference definition stands at the outermost depth. */
  lemma {:induction false} ParamStopsAtDepthOne(s: string, i: nat, open: char, depth: nat, q: Quoting, param: string,
                                                sections: nat)
    requires IsOpen(open) && WellQuoted(q) && depth >= 1
    ensures var r := ParamFrom(s, i, open, ',', depth, q, param, sections);
            && (r.None? ==> FindClose(s, i, open, depth, q) == None)
            && (r.Some? ==> FindClose(s, i, open, depth, q) == FindClose(s, r.value.stop, open, 1, Unquoted))
    decreases |s| - i
  {
    hide FindClose;
    if q.Within? {
      QuotedSteps(s, i, open, depth, q.mark);
      if i < |s| {
        if s[i] == q.mark {
          ParamStopsAtDepthOne(s, i + 1, open, depth, Unquoted, param + [s[i]], sections);
        } else {
          var d := Decode(s, i, q, ',');
          DecodeQuotedIsNeutral(s, i, open, depth, q.mark);
          ParamStopsAtDepthOne(s, d.next, open, depth, q, param + [d.c], sections);
        }
      }
    } else if i >= |s| || IsQuote(s[i]) {
      UnquotedSteps(s, i, open, depth);
      if i < |s| {
        ParamStopsAtDepthOne(s, i + 1, open, depth, Within(s[i]), param + [s[i]], sections + 1);
      }
    } else if !EndsParam(s[i], open, ',', depth) {
      var d := Decode(s, i, q, ',');
      DecodePlainIsNeutral(s, i, open, depth);
      ParamStopsAtDepthOne(s, d.next, open, DepthAfter(s[i], open, depth), q, param + [d.c], sections);
    }
  }

  /** One turn of the parameter loop at the first character of a parameter. */
  lemma ParamsStep(s: string, i: nat, open: char, before: seq<string>)
    requires IsOpen(open) && i < |s| && !IsSpace(s[i])
    requires s[i] != Closing(open) || before != []
    ensures var r := ParamFrom(s, i, open, ',', 1, Unquoted, "", 0);
            ParamsFrom(s, i, open, ',', before) ==
              if r.None? then Err(NoClose)
              else if Finish(r.value) == "" then Err(MissingParam)
              else if s[r.value.stop] == ',' then ParamsFrom(s, r.value.stop + 1, open, ',', before + [Finish(r.value)])
              else Ok(Parsed(before + [Finish(r.value)], r.value.stop + 1))
  {
  }

  lemma ClosesHere(s: string, i: nat, open: char)
    requires IsOpen(open)
    ensures i < |s| && s[i] == Closing(open) ==> FindClose(s, i, open, 1, Unquoted) == Some(i)
  {
  }

  lemma CommaIsNeutral(s: string, i: nat, open: char)
    requires IsOpen(open)
    ensures i < |s| && s[i] == ',' ==> FindClose(s, i, open, 1, Unquoted) == FindClose(s, i + 1, open, 1, Unquoted)
  {
  }

  lemma ParamsSkipSpace(s: string, i: nat, open: char, before: seq<string>)
    requires IsOpen(open)
    ensures ParamsFrom(s, SkipSpace(s, i), open, ',', before) == ParamsFrom(s, i, open, ',', before)
  {
    hide ParamFrom;
    var j := SkipSpace(s, i);
    assert SkipSpace(s, j) == j;
  }

  lemma ParamsAtEnd(s: string, i: nat, open: char, before: seq<string>)
    requires IsOpen(open)
    ensures i >= |s| ==> ParamsFrom(s, i, open, ',', before) == Err(NoClose)
    ensures i < |s| && s[i] == Closing(open) && before == [] ==>
              ParamsFrom(s, i, open, ',', before) == Ok(Parsed([], i + 1))
  {
    hide ParamFrom;
  }

  lemma {:induction false} ParamsStopAtClose(s: string, i: nat, open: char, before: seq<string>)
    requires IsOpen(open)
    ensures var r := ParamsFrom(s, i, open, ',', before);
            && (r.Ok? ==> FindClose(s, i, open, 1, Unquoted) == Some(r.value.next - 1))
            && (r == Err(NoClose) ==> FindClose(s, i, open, 1, Unquoted) == None)
    decreases |s| - i
  {
    hide FindClose, ParamFrom, SkipSpace, Finish, ParamsFrom;
    var j := SkipSpace(s, i);
    SpaceIsNeutral(s, i, open, 1, Unquoted);
    ParamsSkipSpace(s, i, open, before);
    if j >= |s| {
      UnquotedSteps(s, j, open, 1);
      ParamsAtEnd(s, j, open, before);
    } else if s[j] == Closing(open) && before == [] {
      ClosesHere(s, j, open);
      ParamsAtEnd(s, j, open, before);
    } else {
      ParamsStep(s, j, open, before);
      ParamStopsAtDepthOne(s, j, open, 1, Unquoted, "", 0);
      match ParamFrom(s, j, open, ',', 1, Unquoted, "", 0)
      case None =>
      case Some(scan) =>
        CommaIsNeutral(s, scan.stop, open);
        ClosesHere(s, scan.stop, open);
        if Finish(scan) != "" && s[scan.stop] == ',' {
          ParamsStopAtClose(s, scan.stop + 1, open, before + [Finish(scan)]);
        }
    }
  }

  /**
   The two scanners agree. With ',' as separator, when read_params succeeds read_paramsStr
   succeeds too and stops at the same close bracket; when read_params finds no close bracket
   neither does read_paramsStr. The only other failures of read_params are an unknown bracket,
   on which both fail, and a missing parameter.
   */
  lemma ScannersAgree(s: string, start: nat)
    ensures var r := ReadParamsSpec(s, start, ',');
            && (r.Ok? ==> FindClose(s, start + 1, At(s, start), 1, Unquoted) == Some(r.value.next - 1))
            && (r == Err(NoClose) ==> FindClose(s, start + 1, At(s, start), 1, Unquoted) == None)
            && (r == Err(UnknownBracket) <==> !IsOpen(At(s, start)))
  {
    if IsOpen(At(s, start)) {
      ParamsStopAtClose(s, start + 1, s[start], []);
    }
  }

  /** The character-adding step both loops of read_params share. */
  method DecodeStep(inStr: string, start: nat, q: Quoting, sep: char) returns (c: char, linePos: nat)
    requires start < |inStr|
    ensures Decoded(c, linePos) == Decode(inStr, start, q, sep)
  {
    hide SkipBreaks;
    linePos := start;
    if EscapeAt(inStr, linePos) && (inStr[linePos + 1] == 'n' || inStr[linePos + 1] == 't') {
      return if inStr[linePos + 1] == 'n' then '\n' else '\t', linePos + 2;
    } else if EscapeAt(inStr, linePos) || (q.Unquoted? && EscapedSeparatorAt(inStr, linePos, sep)) {
      linePos := linePos + 1;
    }
    c := inStr[linePos];
    linePos := SkipBreaksLoop(inStr, linePos + 1);
  }

  /** The inner for loop of read_params: one parameter. */
  method ReadParam(inStr: string, start: nat, open: char, sep: char) returns (scan: Option<Scan>)
    requires IsOpen(open)
    ensures scan == ParamFrom(inStr, start, open, sep, 1, Unquoted, "", 0)
  {
    hide Decode;
    var linePos, param, depth: nat, sections: nat := start, "", 1, 0;
    while true
      invariant start <= linePos && (linePos <= |inStr| || linePos == start)
      invariant depth >= 1
      invariant ParamFrom(inStr, linePos, open, sep, depth, Unquoted, param, sections) ==
                ParamFrom(inStr, start, open, sep, 1, Unquoted, "", 0)
      decreases |inStr| - linePos
    {
      if linePos >= |inStr| {
        return None;
      } else if IsQuote(inStr[linePos]) {
        var closeChar := inStr[linePos];
        sections := sections + 1;
        param := param + [closeChar];
        ghost var was := linePos;
        linePos := linePos + 1;
        while At(inStr, linePos) != closeChar
          invariant was < linePos <= |inStr|
          invariant ParamFrom(inStr, linePos, open, sep, depth, Within(closeChar), param, sections) ==
                    ParamFrom(inStr, start, open, sep, 1, Unquoted, "", 0)
          decreases |inStr| - linePos
        {
          if linePos >= |inStr| {
            return None;
          }
          var c;
          c, linePos := DecodeStep(inStr, linePos, Within(closeChar), sep);
          param := param + [c];
        }
        param := param + [closeChar];
        linePos := linePos + 1;
      } else {
        if depth == 1 && (inStr[linePos] == Closing(open) || (inStr[linePos] == sep && inStr[linePos] != open)) {
          return Some(Scan(param, sections, linePos));
        }
        var newDepth := DepthAfter(inStr[linePos], open, depth);
        var c;
        c, linePos := DecodeStep(inStr, linePos, Unquoted, sep);
        depth, param := newDepth, param + [c];
      }
    }
  }

  method SkipSpaceLoop(inStr: string, start: nat) returns (linePos: nat)
    ensures linePos == SkipSpace(inStr, start)
  {
    linePos := start;
    while linePos < |inStr| && IsSpace(inStr[linePos])
      invariant SkipSpace(inStr, linePos) == SkipSpace(inStr, start)
      decreases |inStr| - linePos
    {
      linePos := linePos + 1;
    }
  }

  /** read_params, against its specification. */
  method ReadParams(inStr: string, start: nat, sep: char) returns (r: Result<Parsed, ParamError>)
    requires '@' !in inStr
    ensures r == ReadParamsSpec(inStr, start, sep)
  {
    if !IsOpen(At(inStr, start)) {
      return Err(UnknownBracket);
    }
    hide ParamFrom, SkipSpace;
    var open, linePos, params: seq<string> := inStr[start], start, [];
    while true
      invariant start <= linePos < |inStr|
      invariant ParamsFrom(inStr, linePos + 1, open, sep, params) == ParamsFrom(inStr, start + 1, open, sep, [])
      decreases |inStr| - linePos
    {
      linePos := SkipSpaceLoop(inStr, linePos + 1);
      if linePos < |inStr| && inStr[linePos] == Closing(open) && params == [] {
        return Ok(Parsed([], linePos + 1));
      }
      var scan := ReadParam(inStr, linePos, open, sep);
      if scan.None? {
        return Err(NoClose);
      }
      linePos := scan.value.stop;
      var param := if scan.value.sections == 1 then Unquote(scan.value.param) else scan.value.param;
      if sep != ';' && |param| == 0 {
        return Err(MissingParam);
      }
      params := params + [param];
      if inStr[linePos] != sep {
        return Ok(Parsed(params, linePos + 1));
      }
    }
  }
}
