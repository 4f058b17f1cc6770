/**
 The template language n_read_and_process_fast understands, restricted to plain text,
 escapes, pre blocks, comments, @input, @inject, @content, $[title] and $[name]. Any other
 call is reported as Unsupported.
 */
module Templates {
  import opened Params
  import opened Results
  import opened Text
  import PrintedCalls

  datatype Error =
    | MissingFile(path: string)
    | InputLoop(path: string)
    | PreUnopened
    | PreUnclosed
    | CommentUnclosed
    | CommentUnopened
    | BadCall
    | Unsupported
    | ContentMissing
    | TemplateMissing
    | ContentUnused

  /** What is tracked about a page, as far as expanding it is concerned. */
  datatype Page = Page(name: string, title: string, template: string, content: string)

  /** One step of the scanner. Lt is a '<' with what the look-ahead found after it. */
  datatype Token =
    | Emit(text: string)
    | Newline
    | Lt(closePre: bool, isCode: bool, openPre: bool, openComment: bool)
    | CloseComment
    | Nothing
    | Input(path: string, raw: bool)
    | Content(raw: bool)
    | Fail(error: Error)

  datatype Lexeme = Lexeme(token: Token, next: nat)

  /** The arguments of a call, or why they could not be read. */
  datatype Arguments = Arguments(params: seq<string>, next: nat) | NoArguments(error: Error)

  /** The text read_params is given: the bracketed text, unless it asks to be parsed first. */
  function ArgumentsAt(s: string, i: nat): (r: Arguments)
    requires i < |s| && IsOpen(s[i])
    ensures r.Arguments? ==> i < r.next <= |s|
  {
    match FindClose(s, i + 1, s[i], 1, Unquoted)
    case None => NoArguments(if '@' in s[i..] then Unsupported else BadCall)
    case Some(close) =>
      if HasCode(s, i + 1, s[i], 1, Unquoted) then NoArguments(Unsupported)
      else
        match ReadParamsSpec(s[i..close + 1], 0, ',')
        case Err(_) => NoArguments(BadCall)
        case Ok(parsed) => Arguments(parsed.params, close + 1)
  }

  predicate EndsName(c: char) {
    || c == '(' || c == ')' || c == '\n' || c == ' ' || c == '\\' || c == '@'
    || c == '"' || c == '\'' || c == ']' || c == '{' || c == '}'
  }

  /** Characters that take read_func_name beyond a plain name. */
  predicate OddInName(c: char) {
    c == '[' || c == '<' || c == '>' || c == '$' || c == '`' || c == '\t'
  }

  function NameEnd(s: string, i: nat): (j: nat)
    requires i <= |s|
    ensures i <= j <= |s|
    decreases |s| - i
  {
    if i == |s| || EndsName(s[i]) || OddInName(s[i]) then i else NameEnd(s, i + 1)
  }

  function SkipSemicolons(s: string, i: nat): (j: nat)
    ensures i <= j
    ensures i <= |s| ==> j <= |s|
    decreases |s| - i
  {
    if i < |s| && s[i] == ';' then SkipSemicolons(s, i + 1) else i
  }

  /** skip_whitespace: blanks, newlines and line comments. */
  function SkipToText(s: string, i: nat): (j: nat)
    requires i <= |s|
    ensures i <= j <= |s|
    decreases |s| - i
  {
    if i == |s| then i
    else if IsSpace(s[i]) then SkipToText(s, i + 1)
    else if LineCommentAt(s, i) then
      match Find(s, "\n", i)
      case None => |s|
      case Some(j) => assert s[j..j + 1] == "\n"; SkipToText(s, j + 1)
    else i
  }

  /** A call read from its '@': name, options, parameters, trailing semicolons. */
  function LexCall(s: string, i: nat): (r: Lexeme)
    requires i < |s|
    ensures i < r.next <= |s|
    ensures r.token.Input? || r.token.Content? || r.token.Fail?
  {
    var k := NameEnd(s, i + 1);
    var name := s[i + 1..k];
    if (k < |s| && OddInName(s[k])) || name !in ["input", "inject", "content"] then
      Lexeme(Fail(Unsupported), |s|)
    else
      var options := if k < |s| && s[k] == '{' then ArgumentsAt(s, k) else Arguments([], k);
      if options.NoArguments? then Lexeme(Fail(options.error), |s|)
      else if options.params != [] && options.params != ["raw"] then Lexeme(Fail(Unsupported), |s|)
      else if At(s, options.next) == '{' then Lexeme(Fail(Unsupported), |s|)
      else
        var raw := options.params == ["raw"];
        var open := At(s, options.next);
        var args := if open == '(' || open == '[' then ArgumentsAt(s, options.next) else Arguments([], options.next);
        if args.NoArguments? then Lexeme(Fail(args.error), |s|)
        else if name == "content" then
          if args.params == [] then Lexeme(Content(raw), SkipSemicolons(s, args.next))
          else Lexeme(Fail(BadCall), |s|)
        else if |args.params| == 1 then Lexeme(Input(args.params[0], raw), SkipSemicolons(s, args.next))
        else Lexeme(Fail(BadCall), |s|)
  }

  /** A '$': a variable reference when a bracket follows, otherwise itself. */
  function LexDollar(page: Page, s: string, i: nat): (r: Lexeme)
    requires i < |s|
    ensures i < r.next <= |s|
    ensures r.token.Emit? || r.token.Fail?
  {
    if At(s, i + 1) == '[' then
      match ArgumentsAt(s, i + 1)
      case NoArguments(error) => Lexeme(Fail(error), |s|)
      case Arguments(params, next) =>
        if |params| != 1 then Lexeme(Emit("$"), i + 1)
        else if params[0] == "title" then Lexeme(Emit(page.title), next)
        else if params[0] == "name" then Lexeme(Emit(page.name), next)
        else Lexeme(Fail(Unsupported), |s|)
    else if At(s, i + 1) == '{' || At(s, i + 1) == '`' then Lexeme(Fail(Unsupported), |s|)
    else Lexeme(Emit("$"), i + 1)
  }

  /** A '<': a raw comment to skip, or a tag character. */
  function LexLt(s: string, i: nat): (r: Lexeme)
    requires i < |s|
    ensures i < r.next <= |s|
    ensures r.token.Lt? || r.token.Nothing? || r.token.Fail?
  {
    if LooksAt(s, i, "<#--") then
      match Find(s, "--#>", i + 4)
      case None => Lexeme(Fail(CommentUnclosed), |s|)
      case Some(close) =>
        if At(s, close + 4) == '!' then Lexeme(Nothing, close + 5)
        else Lexeme(Nothing, SkipToText(s, close + 4))
    else Lexeme(LtAt(s, i), i + 1)
  }

  /** What the look-ahead after a '<' finds. */
  function LtAt(s: string, i: nat): Token {
    Lt(LooksAt(s, i + 1, "/pre"),
       LooksAt(s, i + 1, "code") || LooksAt(s, i + 1, "/code"),
       LooksAt(s, i + 1, "pre"),
       LooksAt(s, i + 1, "!--"))
  }

  /** The token at a position that is not a newline, in the order the scanner tests. */
  function Lex(page: Page, s: string, i: nat): (r: Lexeme)
    requires i < |s| && s[i] != '\n'
    ensures i < r.next <= |s|
    ensures r.token != Newline
    ensures if s[i] == '@' then r == LexCall(s, i) else !r.token.Input? && !r.token.Content?
  {
    var c := At(s, i + 1);
    if s[i] == '\\' then
      if c == '@' || c == '#' || c == '$' then Lexeme(Emit([c]), i + 2) else Lexeme(Emit("\\"), i + 1)
    else if s[i] == '<' then LexLt(s, i)
    else if s[i] == '-' then
      if LooksAt(s, i, "-->") then Lexeme(CloseComment, i + 1)
      else if LooksAt(s, i, "--#>") then Lexeme(Fail(CommentUnopened), |s|)
      else Lexeme(Emit("-"), i + 1)
    else if s[i] == '@' then LexCall(s, i)
    else if s[i] == '$' then LexDollar(page, s, i)
    else Lexeme(Emit([s[i]]), i + 1)
  }

  /** The call @content prints to insert the page's content file. */
  function ContentCall(page: Page, raw: bool): string {
    "@input" + (if raw then "{raw}" else "") + PrintedCalls.PrintArgs('(', [page.content])
  }

  /**
   What that call means: an input of the content file. A path that its own printing does not
   give back is reported as unsupported.
   */
  function ResolveContent(page: Page, raw: bool): (t: Token)
    ensures t.Input? || t.Fail?
  {
    var call := ContentCall(page, raw);
    if LexCall(call, 0) == Lexeme(Input(page.content, raw), |call|) then Input(page.content, raw) else Fail(Unsupported)
  }

  /** The tokens of a text from i. A newline that ends the text is not a token. */
  function Tokens(page: Page, s: string, i: nat): (ts: seq<Token>)
    ensures forall k | 0 <= k < |ts| :: !ts[k].Content? && !ts[k].Nothing?
    ensures forall k | 0 <= k < |ts| - 1 :: !ts[k].Fail?
    decreases |s| - i
  {
    if i >= |s| then []
    else if s[i] == '\n' then
      if i + 1 < |s| then [Newline] + Tokens(page, s, i + 1) else []
    else
      var lexeme := Lex(page, s, i);
      var token := if lexeme.token.Content? then ResolveContent(page, lexeme.token.raw) else lexeme.token;
      if token.Fail? then [token]
      else if token.Nothing? then Tokens(page, s, lexeme.next)
      else [token] + Tokens(page, s, lexeme.next)
  }

  /** Content paths that survive being printed and read back. */
  predicate SupportedContent(path: string) {
    PrintedCalls.Printable(path) && forall k | 0 <= k < |path| :: !IsCode(path[k])
  }
}
