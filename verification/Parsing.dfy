/**
 The imperative scanner: a Parser whose methods advance over the text, append to the output
 and update the parser's fields, proved against Inline and Layout.
 */
module Parsing {
  import opened Expansion
  import opened Params
  import opened Paths
  import opened Results
  import opened Templates
  import opened Text

  /** Laying out the first node and then the rest. */
  lemma InlineHead(files: Files, page: Page, tokens: seq<Token>, anti: set<string>, st: State)
    requires tokens != []
    ensures Layout(Inline(files, page, tokens, anti), st) ==
              match Layout(Inline(files, page, [tokens[0]], anti), st)
              case Err(error) => Err(error)
              case Ok(st') => Layout(Inline(files, page, tokens[1..], anti), st')
    ensures Layout(Inline(files, page, [tokens[0]], anti), st).Ok? ==>
              Reads(Inline(files, page, tokens, anti)) ==
              Reads(Inline(files, page, [tokens[0]], anti)) + Reads(Inline(files, page, tokens[1..], anti))
  {
    assert [tokens[0]][1..] == [];
  }

  /** The document of a token that is not an input is the token itself. */
  lemma InlineOther(files: Files, page: Page, token: Token, anti: set<string>)
    requires !token.Input?
    ensures Inline(files, page, [token], anti) == Cons(Leaf(token), End)
  {
    assert [token][1..] == [];
  }

  /** Laying out the document of the tokens from a position. */
  function LayoutFrom(files: Files, page: Page, s: string, i: nat, anti: set<string>, st: State): Result<State, Error> {
    Layout(Inline(files, page, Tokens(page, s, i), anti), st)
  }

  function ReadsFrom(files: Files, page: Page, s: string, i: nat, anti: set<string>): set<string> {
    Reads(Inline(files, page, Tokens(page, s, i), anti))
  }

  /** Laying out a single token. */
  function LayoutOne(files: Files, page: Page, token: Token, anti: set<string>, st: State): Result<State, Error> {
    Layout(Inline(files, page, [token], anti), st)
  }

  function ReadsOne(files: Files, page: Page, token: Token, anti: set<string>): set<string> {
    Reads(Inline(files, page, [token], anti))
  }

  /** The token at a position as Tokens sees it. */
  function TokenAt(page: Page, s: string, i: nat): Token
    requires i < |s| && s[i] != '\n'
  {
    var token := Lex(page, s, i).token;
    if token.Content? then ResolveContent(page, token.raw) else token
  }

  /** Taking one token off the front: the scanner's step, on documents. */
  lemma Advance(files: Files, page: Page, s: string, i: nat, anti: set<string>, st: State)
    requires i < |s| && s[i] != '\n'
    ensures var token := TokenAt(page, s, i);
            var next := Lex(page, s, i).next;
            match LayoutOne(files, page, token, anti, st)
            case Err(error) => LayoutFrom(files, page, s, i, anti, st) == Err(error)
            case Ok(st') =>
              && LayoutFrom(files, page, s, i, anti, st) == LayoutFrom(files, page, s, next, anti, st')
              && ReadsFrom(files, page, s, i, anti) ==
                  ReadsOne(files, page, token, anti) + ReadsFrom(files, page, s, next, anti)
  {
    var token := TokenAt(page, s, i);
    hide Layout, Inline, Lex;
    if token.Nothing? {
      InlineOther(files, page, token, anti);
      LayoutLeaf(token, st);
    } else {
      InlineHead(files, page, Tokens(page, s, i), anti, st);
      if token.Fail? {
        InlineOther(files, page, token, anti);
        LayoutLeaf(token, st);
      }
    }
  }

  lemma LayoutLeaf(token: Token, st: State)
    ensures Layout(Cons(Leaf(token), End), st) == PutToken(st, token)
    ensures Reads(Cons(Leaf(token), End)) == {}
  {
  }

  lemma LayoutOther(files: Files, page: Page, token: Token, anti: set<string>, st: State)
    requires !token.Input?
    ensures LayoutOne(files, page, token, anti, st) == PutToken(st, token)
    ensures ReadsOne(files, page, token, anti) == {}
  {
    InlineOther(files, page, token, anti);
    LayoutLeaf(token, st);
  }

  lemma AdvanceNewline(files: Files, page: Page, s: string, i: nat, anti: set<string>, st: State)
    requires i < |s| && s[i] == '\n'
    ensures i + 1 < |s| ==>
              && LayoutFrom(files, page, s, i, anti, st) == LayoutFrom(files, page, s, i + 1, anti, PutNewline(st))
              && ReadsFrom(files, page, s, i, anti) == ReadsFrom(files, page, s, i + 1, anti)
    ensures i + 1 >= |s| ==> AtEnd(files, page, s, i, anti, st)
  {
    if i + 1 < |s| {
      var tokens := Tokens(page, s, i);
      hide Layout, Inline;
      InlineHead(files, page, tokens, anti, st);
      InlineOther(files, page, Newline, anti);
      LayoutLeaf(Newline, st);
    }
  }

  lemma EndOfText(files: Files, page: Page, s: string, i: nat, anti: set<string>, st: State)
    requires i >= |s|
    ensures AtEnd(files, page, s, i, anti, st)
  {
    assert Tokens(page, s, i) == [];
  }

  lemma LayoutFail(files: Files, page: Page, error: Error, anti: set<string>, st: State)
    ensures LayoutOne(files, page, Fail(error), anti, st) == Err(error)
  {
    LayoutOther(files, page, Fail(error), anti, st);
  }

  lemma ReadsOneIsReads(files: Files, page: Page, token: Token, anti: set<string>)
    ensures ReadsOne(files, page, token, anti) == Reads(Inline(files, page, [token], anti))
  {
  }

  /** Nothing is left to lay out. */
  predicate AtEnd(files: Files, page: Page, s: string, i: nat, anti: set<string>, st: State) {
    LayoutFrom(files, page, s, i, anti, st) == Ok(st) && ReadsFrom(files, page, s, i, anti) == {}
  }

  /** The call @content prints is a text of one token, the input it stands for. */
  lemma ContentCallTokens(page: Page, raw: bool)
    requires ResolveContent(page, raw).Input?
    ensures Tokens(page, ContentCall(page, raw), 0) == [Input(page.content, raw)]
    ensures ResolveContent(page, raw) == Input(page.content, raw)
    ensures IsInputCall(ContentCall(page, raw))
  {
    var call := ContentCall(page, raw);
    assert call[0] == '@';
    hide ContentCall, LexCall;
    assert Lex(page, call, 0) == LexCall(call, 0);
    assert Tokens(page, call, |call|) == [];
  }

  lemma UnsupportedContent(page: Page, raw: bool)
    requires ResolveContent(page, raw).Fail?
    ensures ResolveContent(page, raw) == Fail(Unsupported)
  {
    hide LexCall, ContentCall;
  }

  /** A text that is one supported input call and nothing else. */
  predicate IsInputCall(s: string) {
    |s| > 0 && s[0] == '@' && LexCall(s, 0).token.Input? && LexCall(s, 0).next == |s|
  }

  /** Expanding a single input in a call of its own comes to the same. */
  lemma OwnCallIsNeutral(files: Files, page: Page, token: Token, anti: set<string>, st: State, path: string)
    requires token.Input?
    ensures LayoutNode(File(path, Inline(files, page, [token], anti)), st) == LayoutOne(files, page, token, anti, st)
  {
    assert [token][1..] == [];
    assert Inline(files, page, [], anti) == End;
    hide Layout;
    var doc := Inline(files, page, [token], anti);
    var node := doc.head;
    assert doc == Cons(node, End);
    LayoutOnly(node, st);
    LayoutOnly(node, EnterFrame(st));
    NestedOnce(node, st);
  }

  /** An input lays out the same, frame apart, inside one more call. */
  lemma NestedOnce(node: Node, st: State)
    requires node.Leaf? ==> node.token.Fail?
    ensures match LayoutNode(node, EnterFrame(st))
            case Err(error) => LayoutNode(node, st) == Err(error)
            case Ok(st') => st'.codeDepth <= st.codeDepth && LayoutNode(node, st) == Ok(st'.(frame := st.frame))
  {
    assert EnterFrame(EnterFrame(st)) == EnterFrame(st);
    hide Layout;
  }

  lemma LayoutOnly(node: Node, st: State)
    ensures Layout(Cons(node, End), st) == LayoutNode(node, st)
  {
  }

  /** The document of a single input, case by case. */
  lemma InputCases(files: Files, page: Page, path: string, raw: bool, anti: set<string>, st: State)
    ensures var token := Input(path, raw);
            var key := Key(path);
            var layout := LayoutOne(files, page, token, anti, st);
            var found := ReadsOne(files, page, token, anti);
            if key !in files then layout == Err(MissingFile(path))
            else if raw then layout == Ok(PutRaw(st, files[key])) && found == {key}
            else if key in anti then layout == Err(InputLoop(key))
            else
              && layout == LayoutNode(File("", InlineText(files, page, files[key], anti + {key})), st)
              && found == {key} + Reads(InlineText(files, page, files[key], anti + {key}))
  {
    var key := Key(path);
    SingleInput(files, page, path, raw, anti);
    hide Inline, InlineText, Layout;
    if key !in files {
      LayoutLeaf(Fail(MissingFile(path)), st);
    } else if raw {
      LayoutOnly(RawFile(key, files[key]), st);
    } else if key in anti {
      LayoutLeaf(Fail(InputLoop(key)), st);
    } else {
      LayoutOnly(File(key, InlineText(files, page, files[key], anti + {key})), st);
    }
    assert Reads(End) == {};
  }

  lemma SingleInput(files: Files, page: Page, path: string, raw: bool, anti: set<string>)
    ensures var key := Key(path);
            Inline(files, page, [Input(path, raw)], anti) ==
              if key !in files then Cons(Leaf(Fail(MissingFile(path))), End)
              else if raw then Cons(RawFile(key, files[key]), End)
              else if key in anti then Cons(Leaf(Fail(InputLoop(key))), End)
              else Cons(File(key, InlineText(files, page, files[key], anti + {key})), End)
  {
    assert [Input(path, raw)][1..] == [];
    assert Inline(files, page, [], anti) == End;
  }

  /** The method behind ArgumentsAt: the extent of a call, then its parameters. */
  method ReadArguments(inStr: string, start: nat) returns (args: Arguments)
    requires start < |inStr| && IsOpen(inStr[start])
    ensures args == ArgumentsAt(inStr, start)
  {
    assert At(inStr, start) == inStr[start];
    hide ArgumentsAt, FindClose, HasCode, ReadParamsSpec, At, NoAtInArguments;
    if !NoAtInArguments(inStr, start) {
      ArgumentsWithAt(inStr, start);
      return NoArguments(Unsupported);
    }
    var error, linePos, paramsStr, parseParams := ReadParamsStr(inStr, start, "", false);
    if error.Some? {
      assert error.value == NoClose;
      ArgumentsUnclosed(inStr, start);
      return NoArguments(BadCall);
    }
    ArgumentsFound(inStr, start, linePos - 1);
    if parseParams {
      return NoArguments(Unsupported);
    }
    assert "" + inStr[start..linePos] == inStr[start..linePos];
    var parsed := ReadParams(paramsStr, 0, ',');
    match parsed {
      case Err(_) => return NoArguments(BadCall);
      case Ok(p) => return Arguments(p.params, linePos);
    }
  }

  /** ArgumentsAt case by case, on arguments without '@': no close bracket. */
  lemma ArgumentsUnclosed(s: string, start: nat)
    requires start < |s| && IsOpen(s[start]) && NoAtInArguments(s, start)
    requires FindClose(s, start + 1, s[start], 1, Unquoted).None?
    ensures ArgumentsAt(s, start) == NoArguments(BadCall)
  {
    hide FindClose, HasCode;
    assert forall k | start <= k < |s| :: s[k] != '@';
  }

  /** And with one. */
  lemma ArgumentsFound(s: string, start: nat, close: nat)
    requires start < |s| && IsOpen(s[start]) && NoAtInArguments(s, start)
    requires FindClose(s, start + 1, s[start], 1, Unquoted) == Some(close)
    ensures start <= close < |s| && '@' !in s[start..close + 1]
    ensures ArgumentsAt(s, start) ==
            if HasCode(s, start + 1, s[start], 1, Unquoted) then NoArguments(Unsupported)
            else
              match ReadParamsSpec(s[start..close + 1], 0, ',')
              case Err(_) => NoArguments(BadCall)
              case Ok(parsed) => Arguments(parsed.params, close + 1)
  {
    hide HasCode, ReadParamsSpec;
    assert s[close] == Closing(s[start]);
    hide FindClose;
    assert forall k | start <= k < close :: s[k] != '@';
    assert s[close] != '@';
  }

  lemma ArgumentsWithAt(s: string, start: nat)
    requires start < |s| && IsOpen(s[start])
    requires !NoAtInArguments(s, start)
    ensures ArgumentsAt(s, start) == NoArguments(Unsupported)
  {
    match FindClose(s, start + 1, s[start], 1, Unquoted)
    case None =>
      var k :| start <= k < |s| && s[k] == '@';
      assert s[start..][k - start] == '@';
    case Some(close) =>
      var k :| start <= k < close && s[k] == '@';
      AtIsCode(s, start + 1, s[start], 1, Unquoted, k);
  }

  /** find_name: reads the characters of a plain function name. */
  method ReadName(inStr: string, start: nat) returns (linePos: nat)
    requires start <= |inStr|
    ensures linePos == NameEnd(inStr, start)
  {
    linePos := start;
    while linePos < |inStr| && !EndsName(inStr[linePos]) && !OddInName(inStr[linePos])
      invariant linePos <= |inStr|
      invariant NameEnd(inStr, linePos) == NameEnd(inStr, start)
    {
      linePos := linePos + 1;
    }
  }

  method SkipSemicolonsLoop(inStr: string, start: nat) returns (linePos: nat)
    ensures linePos == SkipSemicolons(inStr, start)
  {
    linePos := start;
    while linePos < |inStr| && inStr[linePos] == ';'
      invariant SkipSemicolons(inStr, linePos) == SkipSemicolons(inStr, start)
      decreases |inStr| - linePos
    {
      linePos := linePos + 1;
    }
  }

  /** skip_whitespace without the end-of-file check. */
  method SkipToTextLoop(inStr: string, start: nat) returns (linePos: nat)
    requires start <= |inStr|
    ensures linePos == SkipToText(inStr, start)
  {
    hide LineCommentAt, Find;
    linePos := start;
    while linePos < |inStr| && (IsSpace(inStr[linePos]) || LineCommentAt(inStr, linePos))
      invariant linePos <= |inStr|
      invariant SkipToText(inStr, linePos) == SkipToText(inStr, start)
    {
      if !IsSpace(inStr[linePos]) {
        match Find(inStr, "\n", linePos) {
          case None => return |inStr|;
          case Some(newline) =>
            assert inStr[newline..newline + 1] == "\n";
            linePos := newline + 1;
        }
      } else {
        linePos := linePos + 1;
      }
    }
  }

  /** read_and_process_fn up to the parameters of the supported calls. */
  method ReadCall(inStr: string, start: nat) returns (lexeme: Lexeme)
    requires start < |inStr|
    ensures lexeme == LexCall(inStr, start)
  {
    var linePos := ReadName(inStr, start + 1);
    var funcName := inStr[start + 1..linePos];
    if (linePos < |inStr| && OddInName(inStr[linePos])) || funcName !in ["input", "inject", "content"] {
      return Lexeme(Fail(Unsupported), |inStr|);
    }
    hide ArgumentsAt;
    var options := Arguments([], linePos);
    if linePos < |inStr| && inStr[linePos] == '{' {
      options := ReadArguments(inStr, linePos);
      if options.NoArguments? {
        return Lexeme(Fail(options.error), |inStr|);
      }
    }
    linePos := options.next;
    if (options.params != [] && options.params != ["raw"]) || Text.At(inStr, linePos) == '{' {
      return Lexeme(Fail(Unsupported), |inStr|);
    }
    var args := Arguments([], linePos);
    if Text.At(inStr, linePos) == '(' || Text.At(inStr, linePos) == '[' {
      args := ReadArguments(inStr, linePos);
      if args.NoArguments? {
        return Lexeme(Fail(args.error), |inStr|);
      }
    }
    linePos := SkipSemicolonsLoop(inStr, args.next);
    if funcName == "content" {
      return if |args.params| != 0 then Lexeme(Fail(BadCall), |inStr|)
             else Lexeme(Content(options.params == ["raw"]), linePos);
    }
    return if |args.params| != 1 then Lexeme(Fail(BadCall), |inStr|)
           else Lexeme(Input(args.params[0], options.params == ["raw"]), linePos);
  }

  class Parser {
    const files: Files
    var toBuild: Page
    var indentAmount: string
    var codeBlockDepth: int
    var htmlCommentDepth: int
    var depFiles: set<string>
    var contentAdded: bool

    constructor (files: Files, page: Page)
      ensures this.files == files && toBuild == page
    {
      this.files := files;
      toBuild := page;
      indentAmount := "";
      codeBlockDepth, htmlCommentDepth := 0, 0;
      depFiles, contentAdded := {}, false;
    }

    /** The layout state when the output is out and the running call's locals are in frame. */
    function Now(out: string, frame: Frame): State
      reads this
    {
      State(out, indentAmount, codeBlockDepth, htmlCommentDepth, frame)
    }

    /** Adds a text that stays on the line. */
    method Append(before: string, text: string, ghost frame: Frame) returns (outStr: string)
      modifies this`indentAmount
      ensures Now(outStr, frame) == Put(old(Now(before, frame)), text)
    {
      outStr := before + text;
      indentAmount := indentAmount + IntoWhitespace(text);
    }

    /** Going down one pre block. */
    method ClosePre(frame: Frame, ghost out: string) returns (frame': Frame)
      modifies this`codeBlockDepth
      ensures Now(out, frame') == CloseTag(old(Now(out, frame))) && frame'.depth == frame.depth
    {
      frame' := frame;
      codeBlockDepth := codeBlockDepth - 1;
      if codeBlockDepth == 0 {
        frame' := frame'.(base := frame'.before);
      }
    }

    /** Going up one pre block. */
    method OpenPre(frame: Frame, ghost out: string) returns (frame': Frame)
      modifies this`codeBlockDepth
      ensures Now(out, frame') == OpenTag(old(Now(out, frame))) && frame'.depth == frame.depth
    {
      frame' := frame;
      if codeBlockDepth == 0 {
        frame' := frame'.(before := frame'.base, base := "");
      }
      codeBlockDepth := codeBlockDepth + 1;
    }

    /** A '<' that opens no comment: escaping inside pre blocks, and the depths. */
    method ReadTag(inStr: string, linePos: nat, before: string, frame: Frame)
      returns (error: Option<Error>, outStr: string, frame': Frame)
      requires linePos < |inStr|
      modifies this`indentAmount, this`codeBlockDepth, this`htmlCommentDepth
      ensures match PutLt(old(Now(before, frame)), LtAt(inStr, linePos))
              case Err(e) => error == Some(e)
              case Ok(st) => error == None && Now(outStr, frame') == st
      ensures frame'.depth == frame.depth
    {
      hide LooksAt, Put, OpenTag;
      outStr, frame' := before, frame;
      if htmlCommentDepth == 0 && LooksAt(inStr, linePos + 1, "/pre") {
        frame' := ClosePre(frame', outStr);
        if codeBlockDepth < frame.depth {
          return Some(PreUnopened), outStr, frame';
        }
      }
      if codeBlockDepth > 0 && !LooksAt(inStr, linePos + 1, "code") && !LooksAt(inStr, linePos + 1, "/code") {
        outStr := Append(outStr, "&lt;", frame');
      } else {
        outStr := Append(outStr, "<", frame');
      }
      if htmlCommentDepth == 0 && LooksAt(inStr, linePos + 1, "pre") {
        frame' := OpenPre(frame', outStr);
      }
      if LooksAt(inStr, linePos + 1, "!--") {
        htmlCommentDepth := htmlCommentDepth + 1;
      }
      error := None;
    }

    /** The '<' branch: raw comments are skipped, anything else is a tag. */
    method ReadLt(inStr: string, start: nat, before: string, frame: Frame)
      returns (error: Option<Error>, linePos: nat, outStr: string, frame': Frame)
      requires start < |inStr|
      modifies this`indentAmount, this`codeBlockDepth, this`htmlCommentDepth
      ensures var lexeme := LexLt(inStr, start);
              match PutToken(old(Now(before, frame)), lexeme.token)
              case Err(e) => error == Some(e)
              case Ok(st) => error == None && linePos == lexeme.next && Now(outStr, frame') == st
      ensures frame'.depth == frame.depth
    {
      hide PutLt;
      linePos, outStr, frame' := start, before, frame;
      if !LooksAt(inStr, linePos, "<#--") {
        error, outStr, frame' := ReadTag(inStr, linePos, outStr, frame');
        linePos := linePos + 1;
        return;
      }
      match Find(inStr, "--#>", linePos + 4) {
        case None =>
          error := Some(CommentUnclosed);
        case Some(close) =>
          error, linePos := None, close + 4;
          if Text.At(inStr, linePos) == '!' {
            linePos := linePos + 1;
          } else {
            linePos := SkipToTextLoop(inStr, linePos);
          }
      }
    }

    /** Every branch of the scanner's inner loop but the function calls. */
    method ReadChar(inStr: string, start: nat, before: string, frame: Frame)
      returns (error: Option<Error>, linePos: nat, outStr: string, frame': Frame)
      requires start < |inStr| && inStr[start] != '\n' && inStr[start] != '@'
      modifies this`indentAmount, this`codeBlockDepth, this`htmlCommentDepth
      ensures var lexeme := Lex(toBuild, inStr, start);
              match PutToken(old(Now(before, frame)), lexeme.token)
              case Err(e) => error == Some(e)
              case Ok(st) => error == None && linePos == lexeme.next && Now(outStr, frame') == st
      ensures frame'.depth == frame.depth
    {
      hide LexLt, ArgumentsAt;
      error, linePos, outStr, frame' := None, start, before, frame;
      if inStr[linePos] == '\\' {
        linePos := linePos + 1;
        var c := Text.At(inStr, linePos);
        if c == '@' || c == '#' || c == '$' {
          outStr := Append(outStr, [c], frame');
          linePos := linePos + 1;
        } else {
          outStr := Append(outStr, "\\", frame');
        }
      } else if inStr[linePos] == '<' {
        error, linePos, outStr, frame' := ReadLt(inStr, linePos, outStr, frame');
      } else if inStr[linePos] == '-' {
        if LooksAt(inStr, linePos, "-->") {
          LooksAtIndex(inStr, linePos, "-->", 2);
          htmlCommentDepth := htmlCommentDepth - 1;
        }
        if LooksAt(inStr, linePos, "--#>") {
          LooksAtIndex(inStr, linePos, "--#>", 2);
          return Some(CommentUnopened), linePos, outStr, frame';
        }
        outStr := Append(outStr, "-", frame');
        linePos := linePos + 1;
      } else if inStr[linePos] == '$' && Text.At(inStr, linePos + 1) == '[' {
        var args := ReadArguments(inStr, linePos + 1);
        match args {
          case NoArguments(e) => return Some(e), linePos, outStr, frame';
          case Arguments(params, next) =>
            if |params| != 1 {
              outStr := Append(outStr, "$", frame');
              linePos := linePos + 1;
            } else if params[0] == "title" {
              outStr := Append(outStr, toBuild.title, frame');
              linePos := next;
            } else if params[0] == "name" {
              outStr := Append(outStr, toBuild.name, frame');
              linePos := next;
            } else {
              return Some(Unsupported), linePos, outStr, frame';
            }
        }
      } else if inStr[linePos] == '$' && (Text.At(inStr, linePos + 1) == '{' || Text.At(inStr, linePos + 1) == '`') {
        return Some(Unsupported), linePos, outStr, frame';
      } else {
        outStr := Append(outStr, [inStr[linePos]], frame');
        linePos := linePos + 1;
      }
    }

    /** What the fields record of the files read since the start of the method. */
    twostate predicate Recorded(paths: set<string>)
      reads this
    {
      && toBuild == old(toBuild)
      && depFiles == old(depFiles) + paths
      && contentAdded == (old(contentAdded) || Key(toBuild.content) in paths)
    }

    /** The getline loop of a raw input. */
    method AppendRaw(before: string, text: string, ghost frame: Frame) returns (outStr: string)
      modifies this`indentAmount
      ensures Now(outStr, frame) == PutRaw(old(Now(before, frame)), text)
    {
      hide Join, Lines, IntoWhitespace;
      var lines := Lines(text);
      outStr := before + lines[0];
      var i := 1;
      JoinOne(lines[0], "\n" + indentAmount);
      assert lines[..1] == [lines[0]];
      while i < |lines|
        invariant 1 <= i <= |lines| && indentAmount == old(indentAmount)
        invariant outStr == before + Join(lines[..i], "\n" + indentAmount)
      {
        JoinSnoc(lines[..i], lines[i], "\n" + indentAmount);
        assert lines[..i + 1] == lines[..i] + [lines[i]];
        outStr := outStr + "\n" + indentAmount + lines[i];
        i := i + 1;
      }
      assert lines[..i] == lines;
      indentAmount := indentAmount + IntoWhitespace(lines[|lines| - 1]);
    }

    /** The input branch of read_and_process_fn. */
    method ReadInput(path: string, raw: bool, anti: set<string>, before: string, ghost frame: Frame)
      returns (error: Option<Error>, outStr: string)
      requires depFiles <= files.Keys
      modifies this
      ensures match LayoutOne(files, old(toBuild), Input(path, raw), anti, old(Now(before, frame)))
              case Err(e) => error == Some(e)
              case Ok(st) => error == None && Now(outStr, frame) == st
                             && Recorded(ReadsOne(files, old(toBuild), Input(path, raw), anti))
      ensures toBuild == old(toBuild) && depFiles <= files.Keys
      decreases files.Keys - anti, 0
    {
      outStr := before;
      var inputPath := Key(path);
      InputCases(files, toBuild, path, raw, anti, Now(before, frame));
      hide LayoutOne, ReadsOne, LayoutNode, InlineText;
      if inputPath !in files {
        return Some(MissingFile(path)), outStr;
      }
      depFiles := depFiles + {inputPath};
      if inputPath == Key(toBuild.content) {
        contentAdded := true;
      }
      if raw {
        outStr := AppendRaw(outStr, files[inputPath], frame);
        return None, outStr;
      }
      if inputPath in anti {
        return Some(InputLoop(inputPath)), outStr;
      }
      error, outStr := ReadAndProcess(files[inputPath], anti + {inputPath}, outStr, frame, false);
    }

    /** The call branch of the scanner: inputs, and the content call printed and expanded in turn. */
    method ProcessCall(inStr: string, start: nat, anti: set<string>, before: string, ghost frame: Frame,
                       ghost printed: bool)
      returns (error: Option<Error>, linePos: nat, outStr: string)
      requires depFiles <= files.Keys
      requires start < |inStr| && inStr[start] == '@'
      requires printed ==> IsInputCall(inStr) && start == 0
      modifies this
      ensures linePos == LexCall(inStr, start).next
      ensures match LayoutOne(files, old(toBuild), TokenAt(old(toBuild), inStr, start), anti, old(Now(before, frame)))
              case Err(e) => error == Some(e)
              case Ok(st) => error == None && Now(outStr, frame) == st
                             && Recorded(ReadsOne(files, old(toBuild), TokenAt(old(toBuild), inStr, start), anti))
      ensures toBuild == old(toBuild) && depFiles <= files.Keys
      decreases files.Keys - anti, if printed then 1 else 3
    {
      var lexeme := ReadCall(inStr, start);
      assert Lex(toBuild, inStr, start) == lexeme;
      hide LexCall, Lex, LayoutOne, ReadsOne, Tokens, ContentCall, ResolveContent, LayoutNode, Inline;
      linePos, outStr := lexeme.next, before;
      if lexeme.token.Fail? {
        LayoutFail(files, toBuild, lexeme.token.error, anti, Now(outStr, frame));
        error := Some(lexeme.token.error);
      } else if lexeme.token.Input? {
        error, outStr := ReadInput(lexeme.token.path, lexeme.token.raw, anti, outStr, frame);
      } else {
        var raw := lexeme.token.raw;
        if ResolveContent(toBuild, raw).Fail? {
          UnsupportedContent(toBuild, raw);
          LayoutFail(files, toBuild, Unsupported, anti, Now(outStr, frame));
          error := Some(Unsupported);
          return;
        }
        ContentCallTokens(toBuild, raw);
        OwnCallIsNeutral(files, toBuild, Input(toBuild.content, raw), anti, Now(outStr, frame), "");
        InputCases(files, toBuild, toBuild.content, raw, anti, Now(outStr, frame));
        ReadsOneIsReads(files, toBuild, Input(toBuild.content, raw), anti);
        contentAdded := true;
        error, outStr := ReadAndProcess(ContentCall(toBuild, raw), anti, outStr, frame, true);
      }
    }

    /**
     n_read_and_process_fast, with indentation and output: expands a text onto the output.
     It comes to laying out the text's inlined document, one call deep; on success the
     output and every field are as layout leaves them, and the files read are recorded.
     */
    method ReadAndProcess(inStr: string, anti: set<string>, before: string, ghost outer: Frame, ghost printed: bool)
      returns (error: Option<Error>, outStr: string)
      requires depFiles <= files.Keys
      requires printed ==> IsInputCall(inStr)
      modifies this
      ensures match LayoutNode(File("", InlineText(files, old(toBuild), inStr, anti)), old(Now(before, outer)))
              case Err(e) => error == Some(e)
              case Ok(st) => error == None && Now(outStr, outer) == st
                             && Recorded(Reads(InlineText(files, old(toBuild), inStr, anti)))
      ensures toBuild == old(toBuild) && depFiles <= files.Keys
      decreases files.Keys - anti, if printed then 2 else 4
    {
      hide Tokens, Lex, LexCall, Layout, LayoutOne, ReadsOne, Inline, PutToken;
      var baseCodeBlockDepth := codeBlockDepth;
      var frame := Frame(indentAmount, "", baseCodeBlockDepth, indentAmount);
      var linePos, firstLine := 0, true;
      outStr := before;
      ghost var page := toBuild;
      ghost var start := Now(before, frame);

      while linePos < |inStr|
        invariant linePos <= |inStr| && toBuild == page && depFiles <= files.Keys && frame.depth == baseCodeBlockDepth
        invariant firstLine ==> linePos == 0
        invariant !firstLine && linePos < |inStr| ==> inStr[linePos] == '\n'
        invariant printed && !firstLine ==> linePos == |inStr|
        invariant LayoutFrom(files, page, inStr, 0, anti, start) ==
                    LayoutFrom(files, page, inStr, linePos, anti, Now(outStr, frame))
        invariant depFiles + ReadsFrom(files, page, inStr, linePos, anti) ==
                    old(depFiles) + ReadsFrom(files, page, inStr, 0, anti)
        invariant (contentAdded || Key(page.content) in ReadsFrom(files, page, inStr, linePos, anti)) ==
                  (old(contentAdded) || Key(page.content) in ReadsFrom(files, page, inStr, 0, anti))
        decreases |inStr| - linePos, firstLine
      {
        ghost var was := linePos;
        if !firstLine {
          AdvanceNewline(files, page, inStr, linePos, anti, Now(outStr, frame));
          linePos := linePos + 1;
          if linePos >= |inStr| {
            EndOfText(files, page, inStr, linePos, anti, Now(outStr, frame));
            break;
          }
          indentAmount := frame.base;
          outStr := outStr + "\n" + frame.base;
        }
        firstLine := false;
        while linePos < |inStr| && inStr[linePos] != '\n'
          invariant was <= linePos <= |inStr| && toBuild == page && depFiles <= files.Keys
                      && frame.depth == baseCodeBlockDepth
          invariant printed ==> linePos == 0 || linePos == |inStr|
          invariant LayoutFrom(files, page, inStr, 0, anti, start) ==
                      LayoutFrom(files, page, inStr, linePos, anti, Now(outStr, frame))
          invariant depFiles + ReadsFrom(files, page, inStr, linePos, anti) ==
                      old(depFiles) + ReadsFrom(files, page, inStr, 0, anti)
          invariant (contentAdded || Key(page.content) in ReadsFrom(files, page, inStr, linePos, anti)) ==
                    (old(contentAdded) || Key(page.content) in ReadsFrom(files, page, inStr, 0, anti))
          decreases |inStr| - linePos
        {
          Advance(files, page, inStr, linePos, anti, Now(outStr, frame));
          if inStr[linePos] == '@' {
            error, linePos, outStr := ProcessCall(inStr, linePos, anti, outStr, frame, printed);
          } else {
            LayoutOther(files, page, TokenAt(page, inStr, linePos), anti, Now(outStr, frame));
            error, linePos, outStr, frame := ReadChar(inStr, linePos, outStr, frame);
          }
          if error.Some? {
            return;
          }
        }
      }
      EndOfText(files, page, inStr, linePos, anti, Now(outStr, frame));
      error := if codeBlockDepth > baseCodeBlockDepth then Some(PreUnclosed) else None;
    }

    /** build: expands the page's template from a clean start and checks its content was used. */
    method Build(page: Page) returns (r: Result<Built, Error>)
      modifies this
      ensures r == BuildPage(files, page)
      ensures depFiles <= files.Keys
      ensures r.Ok? ==> depFiles == r.value.dependencies
    {
      toBuild := page;
      depFiles := {};
      if page.template == "" {
        return Err(Unsupported);
      }
      if Key(page.content) !in files {
        return Err(ContentMissing);
      }
      if Key(page.template) !in files {
        return Err(TemplateMissing);
      }
      codeBlockDepth, htmlCommentDepth := 0, 0;
      indentAmount := "";
      contentAdded := false;
      depFiles := depFiles + {Key(page.template)};
      assert depFiles == {Key(page.template)};
      assert Now("", Frame("", "", 0, "")) == START;
      BuildPageSteps(files, page);
      hide InlineText, LayoutNode, Reads, BuildPage;
      var error, parsedText := ReadAndProcess(files[Key(page.template)], {}, "", Frame("", "", 0, ""), false);
      if error.Some? {
        return Err(error.value);
      }
      if !contentAdded {
        return Err(ContentUnused);
      }
      return Ok(Built(parsedText + "\n", depFiles));
    }
  }
}
