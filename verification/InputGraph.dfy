/**
 What expanding a template depends on: the files reachable by inputs. Inlining succeeds
 exactly on complete, acyclic input graphs; it reads exactly the reachable files; and only
 they matter.
 */
module InputGraph {
  import opened Expansion
  import opened Paths
  import opened Templates

  /** The files a text inputs to be expanded in turn. */
  predicate Inputs(page: Page, text: string, path: string) {
    exists t | t in Tokens(page, text, 0) :: t.Input? && !t.raw && Key(t.path) == path
  }

  /** The files a text reads, raw inputs included. */
  predicate Mentions(page: Page, text: string, path: string) {
    exists t | t in Tokens(page, text, 0) :: t.Input? && Key(t.path) == path
  }

  /** A chain of nested inputs of existing files that starts in a text. */
  predicate Walk(files: Files, page: Page, text: string, w: seq<string>)
    decreases |w|
  {
    w == [] || (Inputs(page, text, w[0]) && w[0] in files && Walk(files, page, files[w[0]], w[1..]))
  }

  /** The text a chain ends in. */
  function EndText(files: Files, text: string, w: seq<string>): string
    decreases |w|
  {
    if w == [] || w[0] !in files then text else EndText(files, files[w[0]], w[1..])
  }

  lemma WalkCons(files: Files, page: Page, text: string, path: string, w: seq<string>)
    requires Inputs(page, text, path) && path in files && Walk(files, page, files[path], w)
    ensures Walk(files, page, text, [path] + w)
    ensures EndText(files, text, [path] + w) == EndText(files, files[path], w)
  {
    assert ([path] + w)[1..] == w;
  }

  predicate Distinct(w: seq<string>) {
    forall i, j | 0 <= i < j < |w| :: w[i] != w[j]
  }

  function Elements(w: seq<string>): set<string> {
    set p | p in w
  }

  lemma DistinctCons(w: seq<string>, anti: set<string>)
    requires w != [] && w[0] !in anti
    requires Distinct(w[1..]) && Elements(w[1..]) !! anti + {w[0]}
    ensures Distinct(w) && Elements(w) !! anti
  {
    assert forall k | 0 < k < |w| :: w[k] == w[1..][k - 1] && w[k] in Elements(w[1..]);
  }

  lemma DistinctSnoc(w: seq<string>, p: string)
    requires Distinct(w + [p])
    ensures p !in w
  {
    assert forall k | 0 <= k < |w| :: w[k] == (w + [p])[k] && (w + [p])[k] != (w + [p])[|w|];
  }

  /** A text reads without error and every file it mentions exists. */
  predicate Complete(files: Files, page: Page, text: string) {
    forall t | t in Tokens(page, text, 0) :: !t.Fail? && (t.Input? ==> Key(t.path) in files)
  }

  /** Complete wherever inputs lead, and no chain of inputs meets a file twice. */
  ghost predicate CompleteAndAcyclic(files: Files, page: Page, text: string) {
    forall w | Walk(files, page, text, w) :: Complete(files, page, EndText(files, text, w)) && Distinct(w)
  }

  // ---- A clean document comes from a complete, acyclic graph ----

  /** The nested document of an input that occurs among the tokens. */
  lemma {:induction false} InputIsExpanded(files: Files, page: Page, tokens: seq<Token>, anti: set<string>, t: Token)
    requires t in tokens && t.Input?
    requires Clean(Inline(files, page, tokens, anti))
    ensures Key(t.path) in files && Key(t.path) in Reads(Inline(files, page, tokens, anti))
    ensures !t.raw ==> Key(t.path) !in anti
    ensures !t.raw ==> Clean(InlineText(files, page, files[Key(t.path)], anti + {Key(t.path)}))
    ensures !t.raw ==>
              Reads(InlineText(files, page, files[Key(t.path)], anti + {Key(t.path)})) <=
              Reads(Inline(files, page, tokens, anti))
  {
    hide Tokens;
    if t == tokens[0] {
    } else {
      InputIsExpanded(files, page, tokens[1..], anti, t);
    }
  }

  lemma {:induction false} CleanTokens(files: Files, page: Page, tokens: seq<Token>, anti: set<string>)
    requires Clean(Inline(files, page, tokens, anti))
    ensures forall t | t in tokens :: !t.Fail? && (t.Input? ==> Key(t.path) in files)
  {
    if tokens == [] {
    } else {
      CleanTokens(files, page, tokens[1..], anti);
      assert tokens == [tokens[0]] + tokens[1..];
    }
  }

  /** Along any chain from a cleanly inlined text the end is complete and no file repeats. */
  lemma {:induction false} CleanWalk(files: Files, page: Page, text: string, anti: set<string>, w: seq<string>)
    requires Clean(InlineText(files, page, text, anti)) && Walk(files, page, text, w)
    ensures Complete(files, page, EndText(files, text, w))
    ensures Distinct(w) && Elements(w) !! anti
    decreases |w|
  {
    if w == [] {
      CleanTokens(files, page, Tokens(page, text, 0), anti);
    } else {
      var t :| t in Tokens(page, text, 0) && t.Input? && !t.raw && Key(t.path) == w[0];
      InputIsExpanded(files, page, Tokens(page, text, 0), anti, t);
      CleanWalk(files, page, files[w[0]], anti + {w[0]}, w[1..]);
      DistinctCons(w, anti);
    }
  }

  // ---- A complete, acyclic graph inlines cleanly ----

  /** Chains from a text stay distinct after the chain that led to it. */
  ghost predicate GoodFrom(files: Files, page: Page, text: string, chain: seq<string>) {
    forall w | Walk(files, page, text, w) :: Complete(files, page, EndText(files, text, w)) && Distinct(chain + w)
  }

  lemma GoodWalk(files: Files, page: Page, text: string, chain: seq<string>, path: string, w: seq<string>)
    requires GoodFrom(files, page, text, chain) && Inputs(page, text, path) && path in files
    requires Walk(files, page, files[path], w)
    ensures Complete(files, page, EndText(files, files[path], w)) && Distinct((chain + [path]) + w)
  {
    hide Complete, Distinct, Inputs, EndText, Walk;
    WalkCons(files, page, text, path, w);
    assert (chain + [path]) + w == chain + ([path] + w);
  }

  lemma GoodStep(files: Files, page: Page, text: string, chain: seq<string>, path: string)
    requires GoodFrom(files, page, text, chain) && Inputs(page, text, path) && path in files
    ensures GoodFrom(files, page, files[path], chain + [path])
    ensures path !in chain
  {
    assert Walk(files, page, files[path], []);
    hide Complete, Distinct, Inputs, EndText, Walk;
    forall w | Walk(files, page, files[path], w)
      ensures Complete(files, page, EndText(files, files[path], w)) && Distinct((chain + [path]) + w)
    {
      GoodWalk(files, page, text, chain, path, w);
    }
    GoodWalk(files, page, text, chain, path, []);
    assert (chain + [path]) + [] == chain + [path];
    DistinctSnoc(chain, path);
  }

  lemma {:induction false} GoodInlines(files: Files, page: Page, text: string, chain: seq<string>, tokens: seq<Token>)
    requires GoodFrom(files, page, text, chain)
    requires forall t | t in tokens :: t in Tokens(page, text, 0)
    ensures Clean(Inline(files, page, tokens, Elements(chain)))
    decreases files.Keys - Elements(chain), |tokens|
  {
    if tokens == [] {
    } else {
      var token := tokens[0];
      assert Walk(files, page, text, []);
      assert Complete(files, page, text);
      GoodInlines(files, page, text, chain, tokens[1..]);
      if token.Input? && !token.raw {
        var path := Key(token.path);
        GoodStep(files, page, text, chain, path);
        assert Elements(chain + [path]) == Elements(chain) + {path};
        GoodInlines(files, page, files[path], chain + [path], Tokens(page, files[path], 0));
      }
    }
  }

  /** Inlining a template succeeds exactly when everything it reaches exists and reads, without cycles. */
  lemma InliningSucceedsIff(files: Files, page: Page, text: string)
    ensures Clean(InlineText(files, page, text, {})) <==> CompleteAndAcyclic(files, page, text)
  {
    if Clean(InlineText(files, page, text, {})) {
      forall w | Walk(files, page, text, w)
        ensures Complete(files, page, EndText(files, text, w)) && Distinct(w)
      {
        CleanWalk(files, page, text, {}, w);
      }
    }
    if CompleteAndAcyclic(files, page, text) {
      forall w | Walk(files, page, text, w)
        ensures Complete(files, page, EndText(files, text, w)) && Distinct([] + w)
      {
        assert [] + w == w;
      }
      GoodInlines(files, page, text, [], Tokens(page, text, 0));
      assert Elements([]) == {};
    }
  }

  // ---- Dependencies ----

  /** A file is mentioned at the end of some chain of inputs. */
  ghost predicate Reachable(files: Files, page: Page, text: string, path: string) {
    exists w :: Walk(files, page, text, w) && Mentions(page, EndText(files, text, w), path)
  }

  lemma {:induction false} WalkReads(files: Files, page: Page, text: string, anti: set<string>, w: seq<string>,
                                     path: string)
    requires Clean(InlineText(files, page, text, anti))
    requires Walk(files, page, text, w) && Mentions(page, EndText(files, text, w), path)
    ensures path in Reads(InlineText(files, page, text, anti))
    decreases |w|
  {
    if w == [] {
      var t :| t in Tokens(page, text, 0) && t.Input? && Key(t.path) == path;
      InputIsExpanded(files, page, Tokens(page, text, 0), anti, t);
    } else {
      var t :| t in Tokens(page, text, 0) && t.Input? && !t.raw && Key(t.path) == w[0];
      InputIsExpanded(files, page, Tokens(page, text, 0), anti, t);
      WalkReads(files, page, files[w[0]], anti + {w[0]}, w[1..], path);
    }
  }

  lemma {:induction false} ReadIsReached(files: Files, page: Page, text: string, anti: set<string>,
                                         tokens: seq<Token>, path: string)
    requires forall t | t in tokens :: t in Tokens(page, text, 0)
    requires path in Reads(Inline(files, page, tokens, anti))
    ensures Reachable(files, page, text, path)
    decreases files.Keys - anti, |tokens|
  {
    var token := tokens[0];
    if token.Input? && Key(token.path) == path {
      assert Walk(files, page, text, []);
      assert Mentions(page, EndText(files, text, []), path);
    } else if token.Input? && !token.raw && path !in Reads(Inline(files, page, tokens[1..], anti)) {
      var next := Key(token.path);
      ReadIsReached(files, page, files[next], anti + {next}, Tokens(page, files[next], 0), path);
      hide Inline, Walk, EndText;
      var w :| Walk(files, page, files[next], w) && Mentions(page, EndText(files, files[next], w), path);
      WalkCons(files, page, text, next, w);
    } else {
      ReadIsReached(files, page, text, anti, tokens[1..], path);
    }
  }

  /** The files a clean expansion reads are exactly those inputs reach from the template. */
  lemma ReadsAreReachable(files: Files, page: Page, text: string, path: string)
    requires Clean(InlineText(files, page, text, {}))
    ensures path in Reads(InlineText(files, page, text, {})) <==> Reachable(files, page, text, path)
  {
    if path in Reads(InlineText(files, page, text, {})) {
      ReadIsReached(files, page, text, {}, Tokens(page, text, 0), path);
    }
    if Reachable(files, page, text, path) {
      var w :| Walk(files, page, text, w) && Mentions(page, EndText(files, text, w), path);
      WalkReads(files, page, text, {}, w, path);
    }
  }

  /** Two file systems agree on some files. */
  predicate Agree(files: Files, files': Files, on: set<string>) {
    forall path | path in on :: path in files && path in files' && files[path] == files'[path]
  }

  /** Only the files read matter: a file system agreeing on them inlines the same document. */
  lemma {:induction false} InlineIsLocal(files: Files, files': Files, page: Page, tokens: seq<Token>, anti: set<string>)
    requires Clean(Inline(files, page, tokens, anti))
    requires Agree(files, files', Reads(Inline(files, page, tokens, anti)))
    ensures Inline(files', page, tokens, anti) == Inline(files, page, tokens, anti)
    decreases files.Keys - anti, |tokens|
  {
    if tokens == [] {
    } else {
      InlineIsLocal(files, files', page, tokens[1..], anti);
      var token := tokens[0];
      if token.Input? && !token.raw {
        var path := Key(token.path);
        InlineIsLocal(files, files', page, Tokens(page, files[path], 0), anti + {path});
      }
    }
  }

  lemma {:induction false} LayoutOkIsClean(doc: Doc, st: State)
    requires Layout(doc, st).Ok?
    ensures Clean(doc)
    decreases doc
  {
    match doc
    case End =>
    case Cons(node, tail) =>
      var st' := LayoutNode(node, st).value;
      LayoutOkIsClean(tail, st');
      if node.File? {
        LayoutOkIsClean(node.body, EnterFrame(st));
      }
  }

  /** The document of a page that built. */
  lemma BuiltDocument(files: Files, page: Page)
    requires BuildPage(files, page).Ok?
    ensures Key(page.content) in files && Key(page.template) in files
    ensures var doc := InlineText(files, page, files[Key(page.template)], {});
            && Clean(doc)
            && Key(page.content) in Reads(doc)
            && BuildPage(files, page).value.dependencies == {Key(page.template)} + Reads(doc)
  {
    LayoutOkIsClean(InlineText(files, page, files[Key(page.template)], {}), EnterFrame(START));
  }

  /**
   Dependency recording is complete: a page that builds records exactly its template and the
   files reachable from it, and building it over any other file system that agrees on those
   gives the same output and the same dependencies.
   */
  lemma BuildIsLocal(files: Files, files': Files, page: Page)
    requires BuildPage(files, page).Ok?
    requires Agree(files, files', BuildPage(files, page).value.dependencies)
    ensures BuildPage(files', page) == BuildPage(files, page)
  {
    BuiltDocument(files, page);
    var text := files[Key(page.template)];
    InlineIsLocal(files, files', page, Tokens(page, text, 0), {});
  }

  lemma DependenciesAreReachable(files: Files, page: Page, path: string)
    requires BuildPage(files, page).Ok?
    ensures path in BuildPage(files, page).value.dependencies <==>
            path == Key(page.template) || Reachable(files, page, files[Key(page.template)], path)
  {
    BuiltDocument(files, page);
    ReadsAreReachable(files, page, files[Key(page.template)], path);
  }

  /** Every dependency of a built page existed. */
  lemma {:induction false} ReadsExist(files: Files, page: Page, tokens: seq<Token>, anti: set<string>)
    ensures Reads(Inline(files, page, tokens, anti)) <= files.Keys
    decreases files.Keys - anti, |tokens|
  {
    if tokens == [] {
    } else {
      ReadsExist(files, page, tokens[1..], anti);
      var token := tokens[0];
      if token.Input? && !token.raw && Key(token.path) in files && Key(token.path) !in anti {
        ReadsExist(files, page, Tokens(page, files[Key(token.path)], 0), anti + {Key(token.path)});
      }
    }
  }

  // ---- The order files are read in ----

  /** The files layout reads, in order, up to where it fails if it does. */
  function ReadOrder(doc: Doc, st: State): (paths: seq<string>)
    ensures forall path | path in paths :: path in Reads(doc)
    decreases doc
  {
    match doc
    case End => []
    case Cons(node, tail) =>
      (match node
       case Leaf(_) => []
       case RawFile(path, _) => [path]
       case File(path, body) => [path] + ReadOrder(body, EnterFrame(st)))
      + (match LayoutNode(node, st)
         case Err(_) => []
         case Ok(st') => ReadOrder(tail, st'))
  }

  /** Every file of a document laid out is read. */
  lemma {:induction false} ReadOrderIsReads(doc: Doc, st: State)
    requires Layout(doc, st).Ok?
    ensures forall path | path in Reads(doc) :: path in ReadOrder(doc, st)
    decreases doc
  {
    match doc
    case End =>
    case Cons(node, tail) =>
      ReadOrderIsReads(tail, LayoutNode(node, st).value);
      if node.File? {
        ReadOrderIsReads(node.body, EnterFrame(st));
      }
  }

  /** The files a page's build reads after checking that its own files exist: the template, then what it inputs. */
  function FilesRead(files: Files, page: Page): (paths: seq<string>)
    ensures forall path | path in paths :: path in files
  {
    if page.template == "" || Key(page.content) !in files || Key(page.template) !in files then []
    else
      var text := files[Key(page.template)];
      ReadsExist(files, page, Tokens(page, text, 0), {});
      [Key(page.template)] + ReadOrder(InlineText(files, page, text, {}), EnterFrame(START))
  }

  /** A page that builds has read exactly its dependencies. */
  lemma FilesReadAreDependencies(files: Files, page: Page)
    requires BuildPage(files, page).Ok?
    ensures forall path :: path in BuildPage(files, page).value.dependencies <==> path in FilesRead(files, page)
  {
    var doc := InlineText(files, page, files[Key(page.template)], {});
    BuildPageSteps(files, page);
    ReadOrderIsReads(doc, EnterFrame(START));
  }

  // ---- Nesting ----

  /** Chains of nested files in a document, outermost first. */
  predicate Nests(doc: Doc, chain: seq<string>)
    decreases doc, |chain|
  {
    chain == [] ||
    match doc
    case End => false
    case Cons(node, tail) =>
      (node.File? && node.path == chain[0] && Nests(node.body, chain[1..])) || Nests(tail, chain)
  }

  lemma {:induction false} NestingIsDistinct(files: Files, page: Page, tokens: seq<Token>, anti: set<string>,
                                             chain: seq<string>)
    requires Nests(Inline(files, page, tokens, anti), chain)
    ensures Distinct(chain) && Elements(chain) !! anti && Elements(chain) <= files.Keys
    decreases files.Keys - anti, |tokens|
  {
    if chain == [] {
    } else {
      var doc := Inline(files, page, tokens, anti);
      var node := doc.head;
      if node.File? && node.path == chain[0] && Nests(node.body, chain[1..]) {
        NestingIsDistinct(files, page, Tokens(page, files[node.path], 0), anti + {node.path}, chain[1..]);
        DistinctCons(chain, anti);
        assert chain == [chain[0]] + chain[1..];
      } else {
        NestingIsDistinct(files, page, tokens[1..], anti, chain);
      }
    }
  }

  /**
   On any input graph, cyclic ones included, expansion never nests a file inside itself: along
   a chain of nested files none repeats, so nesting is no deeper than the number of files. The
   template itself is not among the files it guards against, so it may occur once more.
   */
  lemma ExpansionNestsEachFileOnce(files: Files, page: Page, text: string, chain: seq<string>)
    requires Nests(InlineText(files, page, text, {}), chain)
    ensures Distinct(chain) && |chain| <= |files|
  {
    NestingIsDistinct(files, page, Tokens(page, text, 0), {}, chain);
    DistinctLength(chain, files.Keys);
  }

  lemma {:induction false} DistinctLength(w: seq<string>, within: set<string>)
    requires Distinct(w) && Elements(w) <= within
    ensures |w| <= |within|
  {
    if w == [] {
    } else {
      assert w == [w[0]] + w[1..];
      assert w[0] in Elements(w);
      assert forall p | p in w[1..] :: p in Elements(w);
      DistinctLength(w[1..], within - {w[0]});
    }
  }
}
