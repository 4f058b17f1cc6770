/**
 Two ways the incremental build parts from a clean one. Info files keep a title without the
 quotes around it, so a change that only takes quotes off goes unnoticed; and hash files are
 written once per file and process, so in hybrid mode a file edited twice in one process is
 found changed on every later call.
 */
module StalePages {
  import opened Expansion
  import opened Incremental
  import opened Params
  import opened Paths
  import opened PlainText
  import opened Quoted
  import opened Results
  import opened Retitling
  import opened Templates
  import PageBuilds

  const TITLE_TEMPLATE := "$[title]@content"

  lemma TitleReference()
    ensures ArgumentsAt(TITLE_TEMPLATE, 1) == Arguments(["title"], 8)
  {
    hide FindClose, HasCode, ParamFrom;
    var s := TITLE_TEMPLATE;
    var args := "[title]";
    assert s[1..8] == args;
    PlainParam(s, 2, 7, '[', "");
    TitleParams(args);
  }

  lemma TitleParams(args: string)
    requires args == "[title]"
    ensures ReadParamsSpec(args, 0, ',') == Ok(Parsed(["title"], 7))
  {
    hide FindClose, HasCode, ParamFrom;
    PlainParam(args, 1, 6, '[', "");
    assert "" + args[1..6] == "title";
    assert SkipSpace(args, 1) == 1;
    assert [] + ["title"] == ["title"];
  }

  lemma ContentReference()
    ensures LexCall(TITLE_TEMPLATE, 8) == Lexeme(Content(false), 16)
  {
    var s := TITLE_TEMPLATE;
    NameOfLetters(s, 9);
    assert s[9..16] == "content";
    assert SkipSemicolons(s, 16) == 16;
  }

  lemma TitleLexemes(page: Page)
    ensures Lex(page, TITLE_TEMPLATE, 0) == Lexeme(Emit(page.title), 8)
    ensures Lex(page, TITLE_TEMPLATE, 8) == Lexeme(Content(false), 16)
  {
    TitleReference();
    ContentReference();
    hide ArgumentsAt, LexCall;
  }

  lemma TitleTokens(page: Page)
    requires SupportedContent(page.content)
    ensures Tokens(page, TITLE_TEMPLATE, 0) == [Emit(page.title), Input(page.content, false)]
  {
    var s := TITLE_TEMPLATE;
    TitleLexemes(page);
    PageBuilds.ContentIsInput(page, false);
    hide Lex, ResolveContent, SupportedContent;
    TokensStep(page, s, 0, Emit(page.title), 8);
    TokensStep(page, s, 8, Input(page.content, false), 16);
    assert Tokens(page, s, 16) == [];
    hide Tokens;
  }

  lemma TokensStep(page: Page, s: string, i: nat, token: Token, next: nat)
    requires i < |s| && s[i] != '\n' && (token.Emit? || token.Input?)
    requires Lex(page, s, i).next == next
    requires var t := Lex(page, s, i).token; token == if t.Content? then ResolveContent(page, t.raw) else t
    ensures Tokens(page, s, i) == [token] + Tokens(page, s, next)
  {
    hide Lex, ResolveContent;
  }

  /** A page that prints its title before an empty content file. */
  predicate PrintsTitle(files: Files, page: Page) {
    && page.template != "" && SupportedContent(page.content)
    && Key(page.template) in files && files[Key(page.template)] == TITLE_TEMPLATE
    && Key(page.content) in files && files[Key(page.content)] == ""
  }

  /** Such a page builds, and its output is its title. */
  lemma TitlePageBuilds(files: Files, page: Page)
    requires PrintsTitle(files, page)
    ensures BuildPage(files, page).Ok? && BuildPage(files, page).value.output == page.title + "\n"
  {
    hide InlineText, LayoutNode, Tokens, BuildPage, Key, SupportedContent;
    TitleTokens(page);
    TitleDocument(files, page);
    TitleLayout("", Key(page.content), page.title);
    BuildPageSteps(files, page);
  }

  lemma TitleDocument(files: Files, page: Page)
    requires Tokens(page, TITLE_TEMPLATE, 0) == [Emit(page.title), Input(page.content, false)]
    requires Key(page.content) in files && files[Key(page.content)] == ""
    ensures InlineText(files, page, TITLE_TEMPLATE, {}) ==
            Cons(Leaf(Emit(page.title)), Cons(File(Key(page.content), End), End))
  {
    var input := Input(page.content, false);
    assert [Emit(page.title), input][1..] == [input];
    assert [input][1..] == [];
    assert Tokens(page, "", 0) == [];
    hide Tokens;
    assert Inline(files, page, [], {}) == End;
    assert Inline(files, page, [input], {}) == Cons(File(Key(page.content), End), End);
  }

  lemma TitleLayout(template: string, content: string, title: string)
    ensures var doc := Cons(Leaf(Emit(title)), Cons(File(content, End), End));
            var r := LayoutNode(File(template, doc), START);
            r.Ok? && r.value.out == title
  {
    var st := Put(EnterFrame(START), title);
    assert "" + title == title;
    assert LayoutNode(File(content, End), st) == Ok(st) by {
      assert Layout(End, EnterFrame(st)) == Ok(EnterFrame(st));
    }
    assert Layout(Cons(File(content, End), End), st) == Ok(st) by {
      assert Layout(End, st) == Ok(st);
    }
    assert LayoutNode(Leaf(Emit(title)), EnterFrame(START)) == Ok(st);
  }

  /**
   A title built with quotes around it and then changed to the same title without them. The
   page is found up to date unless a hash file is stuck, and its output is then clean exactly
   when the title is printed nowhere.
   */
  lemma UnquotingATitleGoesUnnoticed(p: Project, jobs: seq<Job>, name: string)
    requires WellTracked(p) && JobsFor(p, jobs) && NoneFailed(p, jobs)
    requires name in Selected(p) && AlreadyQuoted(p.pages[name].page.title)
    ensures var page := p.pages[name].page;
            var retitle := Retitle(name, Unquote(page.title));
            var p1 := BuildAll(p, jobs);
            && Enabled(p1, retitle)
            && (Check(Apply(p1, retitle), name) == UpToDate <==>
                  forall path | path in Build(p, name).value.dependencies :: !StuckHash(p, path))
            && Key(page.template) in p.sources
            && (HasCleanOutput(Apply(p1, retitle), name) <==>
                  Document(Texts(p.sources), page.(title := Unquote(page.title))) == Document(Texts(p.sources), page))
  {
    hide BuildPage, Key, BuildAll, Check, StuckHash, Document;
    var page := p.pages[name].page;
    var p1 := BuildAll(p, jobs);
    var p2 := Apply(p1, Retitle(name, Unquote(page.title)));
    var k :| 0 <= k < |jobs| && jobs[k].name == name;
    assert jobs[k] in jobs && TimelyJob(p, jobs[k]);
    BuildAllBuilds(p, jobs, k);
    SelectedHasFiles(p, name);
    UnquoteShortens(page.title);
    ShorterTitle(Texts(p.sources), page, Unquote(page.title));
    RetitledCheck(p2, name, FreshInfo(p, jobs[k]));
    forall path | path in Build(p, name).value.dependencies
      ensures Changed(p2, FreshInfo(p, jobs[k]), path) <==> StuckHash(p, path)
    {
      FreshDependency(p, jobs, k, path);
      assert Changed(p2, FreshInfo(p, jobs[k]), path) == Changed(p1, FreshInfo(p, jobs[k]), path);
    }
  }

  lemma RetitledCheck(p: Project, name: string, info: Info)
    requires name in p.pages && HasFiles(p, name)
    requires var page := p.pages[name].page;
             page.name == info.name && page.title == info.title && page.template == info.template
    requires p.pages[name].output in p.infos && p.infos[p.pages[name].output] == info
    ensures Check(p, name) == UpToDate <==> forall path | path in info.dependencies :: !Changed(p, info, path)
  {
    hide Changed, Key;
  }

  /** Under this title the page would be found up to date with an output no clean build gives. */
  predicate StaleUnder(p: Project, name: string, title: string) {
    && Enabled(p, Retitle(name, title))
    && Check(Apply(p, Retitle(name, title)), name) == UpToDate
    && !HasCleanOutput(Apply(p, Retitle(name, title)), name)
  }

  /** So it is with a page whose template prints the title: the stale page stays as it is. */
  lemma PrintedTitleGoesStale(p: Project, jobs: seq<Job>, name: string)
    requires WellTracked(p) && p.mode == Modified && JobsFor(p, jobs) && NoneFailed(p, jobs)
    requires name in Selected(p) && AlreadyQuoted(p.pages[name].page.title)
    requires PrintsTitle(Texts(p.sources), p.pages[name].page)
    ensures StaleUnder(BuildAll(p, jobs), name, Unquote(p.pages[name].page.title))
  {
    UnquotingATitleGoesUnnoticed(p, jobs, name);
    var page := p.pages[name].page;
    UnquoteShortens(page.title);
    PrintedTitleIsSeen(Texts(p.sources), page, Unquote(page.title));
    hide BuildAll, Build, Check, PrintsTitle, Document;
  }

  lemma PrintedTitleIsSeen(files: Files, page: Page, title: string)
    requires PrintsTitle(files, page) && title != page.title
    ensures Document(files, page.(title := title)) != Document(files, page)
  {
    TitleTokens(page);
    TitleTokens(page.(title := title));
    hide Tokens;
    TitleDocument(files, page);
    TitleDocument(files, page.(title := title));
  }

  /** A stuck hash file stays stuck through any builds, so its pages are selected every time. */
  lemma StuckHashStays(p: Project, jobs: seq<Job>, name: string, path: string)
    requires WellTracked(p) && JobsFor(p, jobs) && Problems(p) == {} && NoneFailed(p, jobs)
    requires name in Selected(p) && path in Build(p, name).value.dependencies && StuckHash(p, path)
    ensures StuckHash(BuildAll(p, jobs), path)
    ensures name in Selected(BuildAll(p, jobs))
  {
    SecondCallSelects(p, jobs, name);
    HashesAfter(p, jobs, path);
    CheckedStays(p, jobs, path);
    hide Check, Build, BuildAll;
    var p' := BuildAll(p, jobs);
  }

  lemma {:induction false} CheckedStays(p: Project, jobs: seq<Job>, path: string)
    requires forall job | job in jobs :: job.name in p.pages
    requires path in p.checked
    ensures path in BuildAll(p, jobs).checked
    decreases |jobs|
  {
    hide BuildPage;
    if jobs == [] {
    } else {
      CheckedStays(BuildOne(p, jobs[0].name, jobs[0].written, jobs[0].touched), jobs[1..], path);
    }
  }

  /** Editing a file already hashed in this process, to a text that hashes differently, gets it stuck. */
  lemma SecondEditSticks(p: Project, path: string, text: string, stamp: nat)
    requires p.mode == Hybrid && path in p.checked && path in p.hashes && p.hashes[path] != p.hash(text)
    requires Enabled(p, Edit(path, text, stamp))
    ensures StuckHash(Apply(p, Edit(path, text, stamp)), path)
    ensures !StuckHash(Apply(Apply(p, Edit(path, text, stamp)), Restart), path)
  {
  }
}
