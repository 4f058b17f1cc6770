/** When a page builds, with what result, and which error it reports otherwise. */
module PageBuilds {
  import opened Expansion
  import opened Indentation
  import opened InputGraph
  import opened Params
  import opened Paths
  import opened Quoted
  import opened Results
  import opened Templates
  import opened Text
  import PrintedCalls

  // ---- @content ----

  lemma {:induction false} NoCode(s: string, i: nat, open: char, depth: nat, q: Quoting, close: nat)
    requires IsOpen(open) && FindClose(s, i, open, depth, q) == Some(close)
    requires forall k | i <= k < close :: !IsCode(s[k])
    ensures !HasCode(s, i, open, depth, q)
    decreases |s| - i
  {
    if i == close && q.Unquoted? && depth <= 1 {
    } else if q.Within? {
      if s[i] == q.mark {
        NoCode(s, i + 1, open, depth, Unquoted, close);
      } else {
        NoCode(s, if EscapeAt(s, i) then i + 2 else i + 1, open, depth, q, close);
      }
    } else if s[i] == Closing(open) {
      NoCode(s, i + 1, open, depth - 1, q, close);
    } else if s[i] == open {
      NoCode(s, i + 1, open, depth + 1, q, close);
    } else if IsQuote(s[i]) {
      NoCode(s, i + 1, open, depth, Within(s[i]), close);
    } else {
      NoCode(s, if EscapeAt(s, i) || EscapedSeparatorAt(s, i, ',') then i + 2 else i + 1, open, depth, q, close);
    }
  }

  /** A printed single argument is read back where it stands, whatever follows, with nothing to parse first. */
  lemma PrintedArgumentAt(s: string, i: nat, path: string, rest: string)
    requires SupportedContent(path) && i <= |s|
    requires s[i..] == PrintedCalls.PrintArgs('(', [path]) + rest
    ensures i < |s| && s[i] == '(' && |rest| <= |s| && ArgumentsAt(s, i) == Arguments([path], |s| - |rest|)
  {
    hide FindClose, HasCode, ParamFrom, ParamsFrom, Quote, PrintedCalls.Printed, PrintedCalls.Printable;
    var printed := PrintedCalls.PrintArgs('(', [path]);
    var inner := Quote(path) + (")" + rest);
    assert Join(PrintedCalls.QuoteAll([path]), ",") == Quote(path);
    assert printed + rest == "(" + inner;
    Follows(s, i, "(", inner);
    PrintedCloses(s, i + 1, path, rest);
    assert s[i..|s| - |rest|] == s[i..][..|printed|] == printed == printed + "";
    PrintedCalls.PrintedArgsParseBack('(', [path], "");
  }

  lemma PrintedCloses(s: string, i: nat, path: string, rest: string)
    requires SupportedContent(path) && i <= |s|
    requires s[i..] == Quote(path) + (")" + rest)
    ensures |rest| < |s| && FindClose(s, i, '(', 1, Unquoted) == Some(|s| - |rest| - 1)
    ensures !HasCode(s, i, '(', 1, Unquoted)
  {
    hide FindClose, HasCode, ParamFrom, ParamsFrom, Quote;
    assert PrintedCalls.Printed([path], ")" + rest) == s[i..];
    PrintedCalls.ReadPrintedFrom(s, i, '(', [path], [], rest);
    ParamsStopAtClose(s, i, '(', []);
    Follows(s, i, Quote(path), ")" + rest);
    forall k | i <= k < |s| - |rest| - 1
      ensures !IsCode(s[k])
    {
      assert s[k] == s[i..][k - i] == (Quote(path) + ")")[k - i];
      QuoteHasNoCode(path, k - i);
    }
    NoCode(s, i, '(', 1, Unquoted, |s| - |rest| - 1);
  }

  lemma QuoteHasNoCode(path: string, k: nat)
    requires SupportedContent(path) && k < |Quote(path) + ")"|
    ensures !IsCode((Quote(path) + ")")[k])
  {
    if 0 < k <= |path| {
      assert (Quote(path) + ")")[k] == path[k - 1];
    }
  }

  lemma RawOptionParses()
    ensures ReadParamsSpec("{raw}", 0, ',') == Ok(Parsed(["raw"], 5))
  {
    var s := "{raw}";
    assert SkipSpace(s, 1) == 1;
    assert ParamFrom(s, 4, '{', ',', 1, Unquoted, "raw", 0) == Some(Scan("raw", 0, 4));
    assert Decode(s, 3, Unquoted, ',') == Decoded('w', 4) && "ra" + ['w'] == "raw";
    assert ParamFrom(s, 3, '{', ',', 1, Unquoted, "ra", 0) == Some(Scan("raw", 0, 4));
    assert Decode(s, 2, Unquoted, ',') == Decoded('a', 3) && "r" + ['a'] == "ra";
    assert ParamFrom(s, 2, '{', ',', 1, Unquoted, "r", 0) == Some(Scan("raw", 0, 4));
    assert Decode(s, 1, Unquoted, ',') == Decoded('r', 2) && "" + ['r'] == "r";
    assert ParamFrom(s, 1, '{', ',', 1, Unquoted, "", 0) == Some(Scan("raw", 0, 4));
    assert [] + ["raw"] == ["raw"];
  }

  /** The call @content prints means an input of the content file, raw when asked for. */
  lemma ContentIsInput(page: Page, raw: bool)
    requires SupportedContent(page.content)
    ensures ResolveContent(page, raw) == Input(page.content, raw)
  {
    hide ArgumentsAt, PrintedCalls.Printable;
    var args := PrintedCalls.PrintArgs('(', [page.content]);
    assert args + "" == args;
    var call := ContentCall(page, raw);
    if raw {
      assert call == "@input" + ("{raw}" + args);
      Follows("@input" + ("{raw}" + args), 0, "@input", "{raw}" + args);
      PlainNameEnd(call);
      RawOptionAt(call, args);
      Follows(call, 6, "{raw}", args);
      PrintedArgumentAt(call, 11, page.content, "");
    } else {
      assert call == "@input" + args;
      Follows(call, 0, "@input", args);
      PlainNameEnd(call);
      PrintedArgumentAt(call, 6, page.content, "");
    }
    assert SkipSemicolons(call, |call|) == |call|;
  }

  lemma RawOptionCloses(call: string)
    requires |call| >= 11 && call[7] == 'r' && call[8] == 'a' && call[9] == 'w' && call[10] == '}'
    ensures FindClose(call, 7, '{', 1, Unquoted) == Some(10) && !HasCode(call, 7, '{', 1, Unquoted)
  {
    assert FindClose(call, 9, '{', 1, Unquoted) == Some(10) && !HasCode(call, 9, '{', 1, Unquoted);
    assert FindClose(call, 7, '{', 1, Unquoted) == FindClose(call, 8, '{', 1, Unquoted);
    assert HasCode(call, 7, '{', 1, Unquoted) == HasCode(call, 8, '{', 1, Unquoted);
  }

  lemma RawOptionAt(call: string, args: string)
    requires |call| >= 6 && call[6..] == "{raw}" + args
    ensures call[6] == '{' && ArgumentsAt(call, 6) == Arguments(["raw"], 11)
  {
    var s := call[6..];
    assert s[..5] == "{raw}";
    Follows(call, 6, "{raw}", args);
    assert call[6] == '{' && call[7] == 'r' && call[8] == 'a' && call[9] == 'w' && call[10] == '}' by {
      assert call[7] == s[1] && call[8] == s[2] && call[9] == s[3] && call[10] == s[4];
    }
    RawOptionCloses(call);
    assert call[6..11] == "{raw}";
    hide FindClose, HasCode;
    RawOptionParses();
  }

  lemma PlainNameEnd(call: string)
    requires |call| > 6 && call[..6] == "@input" && (call[6] == '(' || call[6] == '{')
    ensures NameEnd(call, 1) == 6 && call[1..6] == "input"
  {
    assert call[0] == '@' && call[1] == 'i' && call[2] == 'n' && call[3] == 'p' && call[4] == 'u' && call[5] == 't' by {
      assert forall k | 0 <= k < 6 :: call[k] == call[..6][k];
    }
    assert NameEnd(call, 5) == 6;
    assert NameEnd(call, 3) == NameEnd(call, 4) == NameEnd(call, 5);
    assert NameEnd(call, 1) == NameEnd(call, 2) == NameEnd(call, 3);
    assert call[1..6] == ['i', 'n', 'p', 'u', 't'];
  }

  // ---- When a page builds ----

  function TemplateText(files: Files, page: Page): string
    requires Key(page.template) in files
  {
    files[Key(page.template)]
  }

  /** The pre tags of the inlined template match within each file. */
  predicate TagsMatch(files: Files, page: Page)
    requires Key(page.template) in files
  {
    TagDepths(InlineText(files, page, TemplateText(files, page), {}), 0, 0, 0).Some?
    && TagDepths(InlineText(files, page, TemplateText(files, page), {}), 0, 0, 0).value.0 <= 0
  }

  /**
   A page builds exactly when its files exist, everything inputs reach from the template
   exists and reads without error, no chain of inputs is cyclic, pre tags match within each
   file, and the page's content is among the files reached.
   */
  lemma PageBuildsIff(files: Files, page: Page)
    ensures BuildPage(files, page).Ok? <==>
            && page.template != ""
            && Key(page.content) in files
            && Key(page.template) in files
            && CompleteAndAcyclic(files, page, TemplateText(files, page))
            && TagsMatch(files, page)
            && Reachable(files, page, TemplateText(files, page), Key(page.content))
  {
    if page.template != "" && Key(page.content) in files && Key(page.template) in files {
      var doc := InlineText(files, page, TemplateText(files, page), {});
      InliningSucceedsIff(files, page, TemplateText(files, page));
      LayoutSucceedsIff(doc, EnterFrame(START));
      if Clean(doc) {
        ReadsAreReachable(files, page, TemplateText(files, page), Key(page.content));
      }
    }
  }

  /** Every text inputs reach, up to the first repeated file, has no read error and no pre tag. */
  ghost predicate PlainWhereReached(files: Files, page: Page, text: string) {
    forall w | Walk(files, page, text, w) :: PlainText(page, EndText(files, text, w))
  }

  predicate PlainText(page: Page, text: string) {
    forall t | t in Tokens(page, text, 0) :: !t.Fail? && (t.Lt? ==> !t.openPre && !t.closePre)
  }

  lemma PlainFurtherOn(files: Files, page: Page, text: string, path: string)
    requires PlainWhereReached(files, page, text)
    requires Inputs(page, text, path) && path in files
    ensures PlainWhereReached(files, page, files[path])
  {
    hide PlainText, Walk, EndText, Inputs;
    forall w | Walk(files, page, files[path], w)
      ensures PlainText(page, EndText(files, files[path], w))
    {
      WalkCons(files, page, text, path, w);
    }
  }

  /** The only failures in the document are missing files and input loops. */
  predicate OnlyInputErrors(doc: Doc) {
    match doc
    case End => true
    case Cons(Leaf(token), tail) =>
      (token.Fail? ==> token.error.MissingFile? || token.error.InputLoop?) && OnlyInputErrors(tail)
    case Cons(File(_, body), tail) => OnlyInputErrors(body) && OnlyInputErrors(tail)
    case Cons(RawFile(_, _), tail) => OnlyInputErrors(tail)
  }

  lemma {:induction false} PlainInlines(files: Files, page: Page, text: string, tokens: seq<Token>, anti: set<string>)
    requires PlainWhereReached(files, page, text)
    requires forall t | t in tokens :: t in Tokens(page, text, 0)
    ensures PreFree(Inline(files, page, tokens, anti)) && OnlyInputErrors(Inline(files, page, tokens, anti))
    decreases files.Keys - anti, |tokens|
  {
    if tokens == [] {
    } else {
      var token := tokens[0];
      assert Walk(files, page, text, []);
      assert PlainText(page, EndText(files, text, []));
      PlainInlines(files, page, text, tokens[1..], anti);
      if token.Input? && !token.raw && Key(token.path) in files && Key(token.path) !in anti {
        var path := Key(token.path);
        PlainFurtherOn(files, page, text, path);
        PlainInlines(files, page, files[path], Tokens(page, files[path], 0), anti + {path});
      }
    }
  }

  /** The error layout stops at occurs in the document. */
  predicate Occurs(doc: Doc, error: Error) {
    match doc
    case End => false
    case Cons(Leaf(token), tail) => token == Fail(error) || Occurs(tail, error)
    case Cons(File(_, body), tail) => Occurs(body, error) || Occurs(tail, error)
    case Cons(RawFile(_, _), tail) => Occurs(tail, error)
  }

  lemma {:induction false} LayoutErrorOccurs(doc: Doc, st: State)
    requires Layout(doc, st).Err?
    ensures var error := Layout(doc, st).error; error.PreUnopened? || error.PreUnclosed? || Occurs(doc, error)
    decreases doc
  {
    match doc
    case End =>
    case Cons(node, tail) =>
      match LayoutNode(node, st)
      case Ok(st') => LayoutErrorOccurs(tail, st');
      case Err(_) =>
        if node.File? && Layout(node.body, EnterFrame(st)).Err? {
          LayoutErrorOccurs(node.body, EnterFrame(st));
        }
  }

  /** Without pre tags layout stops only at an error of the document. */
  lemma {:induction false} PreFreeErrorOccurs(doc: Doc, st: State)
    requires Layout(doc, st).Err? && PreFree(doc)
    ensures Occurs(doc, Layout(doc, st).error)
    decreases doc
  {
    match doc
    case End =>
    case Cons(node, tail) =>
      match LayoutNode(node, st)
      case Ok(st') => PreFreeErrorOccurs(tail, st');
      case Err(_) =>
        if node.File? {
          if Layout(node.body, EnterFrame(st)).Err? {
            PreFreeErrorOccurs(node.body, EnterFrame(st));
          } else {
            LayoutSucceedsIff(node.body, EnterFrame(st));
            PreFreeBalances(node.body, st.codeDepth, st.commentDepth, st.codeDepth);
          }
        }
  }

  lemma {:induction false} OccurringInputError(doc: Doc, error: Error)
    requires Occurs(doc, error) && OnlyInputErrors(doc)
    ensures error.MissingFile? || error.InputLoop?
    decreases doc
  {
    match doc
    case Cons(node, tail) =>
      if node.File? && Occurs(node.body, error) {
        OccurringInputError(node.body, error);
      } else if node != Leaf(Fail(error)) {
        OccurringInputError(tail, error);
      }
  }

  /** What a reported error says about the input graph, seen from the end of a chain. */
  ghost predicate Explains(files: Files, page: Page, text: string, chain: seq<string>, error: Error, w: seq<string>) {
    && Walk(files, page, text, w)
    && (error.MissingFile? ==> Key(error.path) !in files && Mentions(page, EndText(files, text, w), Key(error.path)))
    && (error.InputLoop? ==> !Distinct(chain + w))
  }

  lemma ExplainsCons(files: Files, page: Page, text: string, chain: seq<string>, error: Error, path: string,
                     w: seq<string>)
    requires Inputs(page, text, path) && path in files
    requires Explains(files, page, files[path], chain + [path], error, w)
    ensures Explains(files, page, text, chain, error, [path] + w)
  {
    hide Walk, EndText, Mentions, Distinct, Inputs;
    WalkCons(files, page, text, path, w);
    assert (chain + [path]) + w == chain + ([path] + w);
  }

  predicate IsInputError(error: Error) {
    error.MissingFile? || error.InputLoop?
  }

  /** What reading a text can report. */
  predicate IsReadError(error: Error) {
    error.CommentUnclosed? || error.CommentUnopened? || error.BadCall? || error.Unsupported?
  }

  lemma LexErrorsAreOther(page: Page, s: string, i: nat)
    requires i < |s| && s[i] != '\n'
    ensures var t := Lex(page, s, i).token; t.Fail? ==> IsReadError(t.error)
  {
  }

  /** Reading a text reports none but the errors of reading. */
  lemma {:induction false} ReadErrorsAreOther(page: Page, s: string, i: nat)
    ensures forall t | t in Tokens(page, s, i) && t.Fail? :: IsReadError(t.error)
    decreases |s| - i
  {
    if i >= |s| {
    } else if s[i] == '\n' {
      ReadErrorsAreOther(page, s, i + 1);
    } else {
      LexErrorsAreOther(page, s, i);
      hide Lex, LexCall, ContentCall;
      ReadErrorsAreOther(page, s, Lex(page, s, i).next);
    }
  }

  /**
   Wherever a missing file or a loop stands in an inlined document, it is real: the file is
   mentioned at the end of some chain of inputs and missing, and the loop is a chain that meets
   a file twice.
   */
  lemma {:induction false} InputErrorsAreReal(files: Files, page: Page, text: string, chain: seq<string>,
                                              tokens: seq<Token>, error: Error)
    returns (w: seq<string>)
    requires IsInputError(error) && forall t | t in tokens :: t in Tokens(page, text, 0)
    requires Occurs(Inline(files, page, tokens, Elements(chain)), error)
    ensures Explains(files, page, text, chain, error, w)
    decreases files.Keys - Elements(chain), |tokens|
  {
    var token := tokens[0];
    ReadErrorsAreOther(page, text, 0);
    assert Walk(files, page, text, []);
    hide Walk, EndText, Distinct;
    if Occurs(Inline(files, page, tokens[1..], Elements(chain)), error) {
      w := InputErrorsAreReal(files, page, text, chain, tokens[1..], error);
    } else if Key(token.path) !in files {
      w := [];
      MissingHere(files, page, text, chain, token, error);
    } else {
      var path := Key(token.path);
      if path in Elements(chain) {
        w := [path];
        LoopIsWalk(files, page, text, chain, path);
      } else {
        assert Elements(chain + [path]) == Elements(chain) + {path};
        w := InputErrorsAreReal(files, page, files[path], chain + [path], Tokens(page, files[path], 0), error);
        ExplainsCons(files, page, text, chain, error, path, w);
        w := [path] + w;
      }
    }
  }

  /** A missing file or a loop that expanding a text reports is really there, whatever the texts. */
  lemma ReportedInputErrorsAreReal(files: Files, page: Page, text: string) returns (w: seq<string>)
    requires var r := Layout(InlineText(files, page, text, {}), EnterFrame(START)); r.Err? && IsInputError(r.error)
    ensures Explains(files, page, text, [], Layout(InlineText(files, page, text, {}), EnterFrame(START)).error, w)
  {
    hide Layout, Inline, Tokens, Explains;
    LayoutErrorOccurs(InlineText(files, page, text, {}), EnterFrame(START));
    assert Elements([]) == {};
    w := InputErrorsAreReal(files, page, text, [], Tokens(page, text, 0),
        Layout(InlineText(files, page, text, {}), EnterFrame(START)).error);
  }

  lemma MissingHere(files: Files, page: Page, text: string, chain: seq<string>, token: Token, error: Error)
    requires token in Tokens(page, text, 0) && token.Input? && Key(token.path) !in files
    requires error == MissingFile(token.path)
    ensures Explains(files, page, text, chain, error, [])
  {
  }

  lemma LoopIsWalk(files: Files, page: Page, text: string, chain: seq<string>, path: string)
    requires Inputs(page, text, path) && path in files && path in chain
    ensures Walk(files, page, text, [path]) && !Distinct(chain + [path])
  {
    WalkCons(files, page, text, path, []);
    assert [path] + [] == [path];
    var i :| 0 <= i < |chain| && chain[i] == path;
    assert (chain + [path])[i] == (chain + [path])[|chain|];
  }

  /**
   With well-read texts and no pre tags, expanding a template succeeds exactly when every file
   reached exists and the input graph is acyclic; the error reported otherwise is a missing
   file that is really mentioned, or a loop that is really there.
   */
  lemma PlainExpansion(files: Files, page: Page, text: string)
    requires PlainWhereReached(files, page, text)
    ensures var r := Layout(InlineText(files, page, text, {}), EnterFrame(START));
            && (r.Ok? <==> CompleteAndAcyclic(files, page, text))
            && (r.Err? ==> (r.error.MissingFile? || r.error.InputLoop?)
                           && exists w :: Explains(files, page, text, [], r.error, w))
  {
    var doc := InlineText(files, page, text, {});
    PlainInlines(files, page, text, Tokens(page, text, 0), {});
    InliningSucceedsIff(files, page, text);
    LayoutSucceedsIff(doc, EnterFrame(START));
    PreFreeBalances(doc, 0, 0, 0);
    if Layout(doc, EnterFrame(START)).Err? {
      var error := Layout(doc, EnterFrame(START)).error;
      PreFreeErrorOccurs(doc, EnterFrame(START));
      OccurringInputError(doc, error);
      assert Elements([]) == {};
      var w := InputErrorsAreReal(files, page, text, [], Tokens(page, text, 0), error);
    }
  }

  // ---- What a page that does not build reports ----

  lemma {:induction false} InlinedErrors(files: Files, page: Page, tokens: seq<Token>, anti: set<string>, error: Error)
    requires forall t | t in tokens && t.Fail? :: IsReadError(t.error)
    requires Occurs(Inline(files, page, tokens, anti), error)
    ensures IsReadError(error) || IsInputError(error)
    decreases files.Keys - anti, |tokens|
  {
    var token := tokens[0];
    hide Tokens;
    if Occurs(Inline(files, page, tokens[1..], anti), error) {
      InlinedErrors(files, page, tokens[1..], anti, error);
    } else if token.Input? && Key(token.path) in files && Key(token.path) !in anti {
      var path := Key(token.path);
      ReadErrorsAreOther(page, files[path], 0);
      InlinedErrors(files, page, Tokens(page, files[path], 0), anti + {path}, error);
    } else {
      assert token.Fail? ==> token in tokens;
    }
  }

  /**
   A page with a template reports its content missing exactly when its file is, its template
   missing exactly when that one's file is and the content's is there, and its content unused
   exactly when all else it takes to build is given.
   */
  lemma PageErrorIff(files: Files, page: Page)
    requires page.template != ""
    ensures BuildPage(files, page) == Err(ContentMissing) <==> Key(page.content) !in files
    ensures BuildPage(files, page) == Err(TemplateMissing) <==>
            Key(page.content) in files && Key(page.template) !in files
    ensures BuildPage(files, page) == Err(ContentUnused) <==>
            && Key(page.content) in files && Key(page.template) in files
            && CompleteAndAcyclic(files, page, TemplateText(files, page)) && TagsMatch(files, page)
            && !Reachable(files, page, TemplateText(files, page), Key(page.content))
  {
    if Key(page.content) in files && Key(page.template) in files {
      var doc := InlineText(files, page, TemplateText(files, page), {});
      InliningSucceedsIff(files, page, TemplateText(files, page));
      LayoutSucceedsIff(doc, EnterFrame(START));
      if Layout(doc, EnterFrame(START)).Err? {
        LayoutErrorOccurs(doc, EnterFrame(START));
        ReadErrorsAreOther(page, TemplateText(files, page), 0);
        if Occurs(doc, Layout(doc, EnterFrame(START)).error) {
          InlinedErrors(files, page, Tokens(page, TemplateText(files, page), 0), {},
              Layout(doc, EnterFrame(START)).error);
        }
      }
      BuildPageSteps(files, page);
      hide InlineText, Layout, CompleteAndAcyclic, Reachable, Tokens, Occurs;
      if Clean(doc) {
        ReadsAreReachable(files, page, TemplateText(files, page), Key(page.content));
      }
    }
  }

  // ---- Output of a page ----

  /**
   Through the whole build of a page, from the start of its template to the end, the tracked
   indentation is that of the line being written exactly when no title or name printed holds a
   line break.
   */
  lemma BuildStaysAlignedIff(files: Files, page: Page)
    requires BuildPage(files, page).Ok?
    ensures Key(page.template) in files
    ensures var doc := InlineText(files, page, TemplateText(files, page), {});
            (forall v | v in Trace(doc, EnterFrame(START)) :: Aligned(v)) <==> SingleLine(doc)
  {
    var doc := InlineText(files, page, TemplateText(files, page), {});
    assert IntoWhitespace("") == "" && LastLine("") == "";
    LayoutAlignedIff(doc, EnterFrame(START));
  }

  /** So it is for every page whose title and name have no line break. */
  lemma PlainTitlesStayAligned(files: Files, page: Page)
    requires '\n' !in page.title && '\n' !in page.name && Key(page.template) in files
    ensures SingleLine(InlineText(files, page, TemplateText(files, page), {}))
  {
    TokensEmitOneLine(page, TemplateText(files, page), 0);
    InlineIsSingleLine(files, page, Tokens(page, TemplateText(files, page), 0), {});
  }

  /**
   Every line of a built page. Its output is lines that start where they should, and a newline:
   each file's from the column it was input at, inside its own pre blocks from the start.
   */
  lemma BuiltLinesHang(files: Files, page: Page) returns (text: string)
    requires BuildPage(files, page).Ok? && '\n' !in page.title && '\n' !in page.name
    ensures Key(page.template) in files
    ensures BuildPage(files, page).value.output == text + "\n"
    ensures BrokenAt(text, 0, LineBreaks(InlineText(files, page, TemplateText(files, page), {}), EnterFrame(START)))
  {
    var doc := InlineText(files, page, TemplateText(files, page), {});
    assert IntoWhitespace("") == "" && LastLine("") == "";
    PlainTitlesStayAligned(files, page);
    BuildPageSteps(files, page);
    text := Layout(doc, EnterFrame(START)).value.out;
    hide Inline, BrokenAt, LineBreaks, BuildPage;
    LinesHang(doc, EnterFrame(START));
  }
}
