/**
 What a page's title does to its build. Under two titles a template inlines to documents
 that differ only where the title is printed; they succeed or fail together and read the
 same files, and when one title is longer the outputs agree only if the documents do.
 */
module Retitling {
  import opened Expansion
  import opened Paths
  import opened Templates
  import opened Text

  // ---- Documents under two titles ----

  /** The same token, or one title where the other has the other. */
  predicate AlikeToken(a: Token, b: Token, s: string, t: string) {
    a == b || (a == Emit(s) && b == Emit(t))
  }

  predicate AlikeTokens(a: seq<Token>, b: seq<Token>, s: string, t: string) {
    |a| == |b| && forall k | 0 <= k < |a| :: AlikeToken(a[k], b[k], s, t)
  }

  /** The same document but for printed titles: s in the one where the other has t. */
  predicate Alike(a: Doc, b: Doc, s: string, t: string) {
    match (a, b)
    case (End, End) => true
    case (Cons(Leaf(x), a'), Cons(Leaf(y), b')) => AlikeToken(x, y, s, t) && Alike(a', b', s, t)
    case (Cons(RawFile(p, x), a'), Cons(RawFile(q, y), b')) => p == q && x == y && Alike(a', b', s, t)
    case (Cons(File(p, x), a'), Cons(File(q, y), b')) => p == q && Alike(x, y, s, t) && Alike(a', b', s, t)
    case _ => false
  }

  lemma LexAlike(page: Page, t: string, text: string, i: nat)
    requires i < |text| && text[i] != '\n'
    ensures var a, b := Lex(page, text, i), Lex(page.(title := t), text, i);
            AlikeToken(a.token, b.token, page.title, t) && a.next == b.next
  {
  }

  lemma SameContent(page: Page, t: string, raw: bool)
    ensures ResolveContent(page.(title := t), raw) == ResolveContent(page, raw)
  {
    hide LexCall;
  }

  lemma AlikeCons(x: Token, y: Token, a: seq<Token>, b: seq<Token>, s: string, t: string)
    requires AlikeToken(x, y, s, t) && AlikeTokens(a, b, s, t)
    ensures AlikeTokens([x] + a, [y] + b, s, t)
  {
  }

  lemma {:induction false} TokensAlike(page: Page, t: string, text: string, i: nat)
    ensures AlikeTokens(Tokens(page, text, i), Tokens(page.(title := t), text, i), page.title, t)
    decreases |text| - i
  {
    hide Lex, ResolveContent, AlikeTokens;
    if i >= |text| {
      NothingAlike(page.title, t);
    } else if text[i] == '\n' {
      NothingAlike(page.title, t);
      TokensAlike(page, t, text, i + 1);
      AlikeCons(Newline, Newline, Tokens(page, text, i + 1), Tokens(page.(title := t), text, i + 1), page.title, t);
    } else {
      LexAlike(page, t, text, i);
      forall raw
        ensures ResolveContent(page.(title := t), raw) == ResolveContent(page, raw)
      {
        SameContent(page, t, raw);
      }
      TokensAlike(page, t, text, Lex(page, text, i).next);
      LexemeAlike(page, t, text, i);
    }
  }

  lemma NothingAlike(s: string, t: string)
    ensures AlikeTokens([], [], s, t)
  {
  }

  /** The tokens from a position on, given those after the next. */
  lemma LexemeAlike(page: Page, t: string, text: string, i: nat)
    requires i < |text| && text[i] != '\n'
    requires var a, b := Lex(page, text, i), Lex(page.(title := t), text, i);
             AlikeToken(a.token, b.token, page.title, t) && a.next == b.next
    requires forall raw :: ResolveContent(page.(title := t), raw) == ResolveContent(page, raw)
    requires var next := Lex(page, text, i).next;
             AlikeTokens(Tokens(page, text, next), Tokens(page.(title := t), text, next), page.title, t)
    ensures AlikeTokens(Tokens(page, text, i), Tokens(page.(title := t), text, i), page.title, t)
  {
    hide Lex, ResolveContent, AlikeTokens;
    var a, b := Lex(page, text, i), Lex(page.(title := t), text, i);
    var x := if a.token.Content? then ResolveContent(page, a.token.raw) else a.token;
    var y := if b.token.Content? then ResolveContent(page.(title := t), b.token.raw) else b.token;
    assert AlikeToken(x, y, page.title, t);
    var rest, rest' := Tokens(page, text, a.next), Tokens(page.(title := t), text, a.next);
    AlikeCons(x, y, rest, rest', page.title, t);
    NothingAlike(page.title, t);
    AlikeCons(x, y, [], [], page.title, t);
    assert [x] + [] == [x] && [y] + [] == [y];
  }

  lemma {:induction false} InlineAlike(files: Files, page: Page, t: string, tokens: seq<Token>, tokens': seq<Token>,
                                       anti: set<string>)
    requires AlikeTokens(tokens, tokens', page.title, t)
    ensures Alike(Inline(files, page, tokens, anti), Inline(files, page.(title := t), tokens', anti), page.title, t)
    decreases files.Keys - anti, |tokens|
  {
    hide Tokens, Key;
    if tokens == [] {
    } else {
      InlineAlike(files, page, t, tokens[1..], tokens'[1..], anti);
      var token := tokens[0];
      assert AlikeToken(token, tokens'[0], page.title, t);
      if token.Input? && !token.raw && Key(token.path) in files && Key(token.path) !in anti {
        var text := files[Key(token.path)];
        TokensAlike(page, t, text, 0);
        InlineAlike(files, page, t, Tokens(page, text, 0), Tokens(page.(title := t), text, 0),
            anti + {Key(token.path)});
      }
    }
  }

  lemma {:induction false} AlikeReads(a: Doc, b: Doc, s: string, t: string)
    requires Alike(a, b, s, t)
    ensures Reads(a) == Reads(b)
    decreases a
  {
    match a
    case End =>
    case Cons(node, tail) =>
      AlikeReads(tail, b.tail, s, t);
      if node.File? {
        AlikeReads(node.body, b.head.body, s, t);
      }
  }

  // ---- Layout is monotone in the length of the title ----

  /** The same depths, and nothing longer. */
  predicate NoLonger(x: State, y: State) {
    && |x.out| <= |y.out| && |x.indent| <= |y.indent|
    && x.codeDepth == y.codeDepth && x.commentDepth == y.commentDepth
    && NoLongerFrame(x.frame, y.frame)
  }

  predicate NoLongerFrame(f: Frame, g: Frame) {
    |f.base| <= |g.base| && |f.before| <= |g.before| && |f.entry| <= |g.entry| && f.depth == g.depth
  }

  /** From states no longer than each other, the second has grown at least as much, and more when told so. */
  predicate GrowsMore(x: State, y: State, x': State, y': State, more: bool) {
    && NoLonger(x', y')
    && |y'.out| - |y.out| >= |x'.out| - |x.out| + (if more then 1 else 0)
  }

  lemma {:induction false} JoinLength(lines: seq<string>, sep: string, sep': string)
    requires |sep| <= |sep'|
    ensures |Join(lines, sep)| <= |Join(lines, sep')|
  {
    if |lines| <= 1 {
    } else {
      JoinLength(lines[1..], sep, sep');
    }
  }

  lemma RawGrows(x: State, y: State, text: string)
    requires NoLonger(x, y)
    ensures GrowsMore(x, y, PutRaw(x, text), PutRaw(y, text), false)
  {
    JoinLength(Lines(text), "\n" + x.indent, "\n" + y.indent);
    hide Join;
  }

  lemma PutGrows(x: State, y: State, a: string, b: string)
    requires NoLonger(x, y) && |a| <= |b|
    ensures GrowsMore(x, y, Put(x, a), Put(y, b), |a| < |b|)
  {
    hide IntoWhitespace;
  }

  lemma LtGrows(x: State, y: State, token: Token)
    requires NoLonger(x, y) && token.Lt?
    ensures match PutLt(x, token)
            case Err(_) => PutLt(y, token).Err?
            case Ok(x') => PutLt(y, token).Ok? && GrowsMore(x, y, x', PutLt(y, token).value, false)
  {
    hide IntoWhitespace;
  }

  lemma TokenGrows(x: State, y: State, a: Token, b: Token, s: string, t: string)
    requires NoLonger(x, y) && AlikeToken(a, b, s, t) && |s| < |t|
    ensures match PutToken(x, a)
            case Err(_) => PutToken(y, b).Err?
            case Ok(x') => PutToken(y, b).Ok? && GrowsMore(x, y, x', PutToken(y, b).value, a != b)
  {
    match a
    case Emit(text) => PutGrows(x, y, text, b.text);
    case Lt(_, _, _, _) => LtGrows(x, y, a);
    case CloseComment =>
      var depth := x.commentDepth - 1;
      PutGrows(x.(commentDepth := depth), y.(commentDepth := depth), "-", "-");
    case _ => hide Put, PutLt;
  }

  lemma {:induction false} LayoutGrows(x: State, y: State, a: Doc, b: Doc, s: string, t: string)
    requires NoLonger(x, y) && Alike(a, b, s, t) && |s| < |t|
    ensures match Layout(a, x)
            case Err(_) => Layout(b, y).Err?
            case Ok(x') => Layout(b, y).Ok? && GrowsMore(x, y, x', Layout(b, y).value, a != b)
    decreases a
  {
    hide NoLonger;
    match a
    case End =>
    case Cons(node, tail) =>
      NodeGrows(x, y, node, b.head, s, t);
      match LayoutNode(node, x)
      case Err(_) =>
      case Ok(x') =>
        assert NoLonger(x', LayoutNode(b.head, y).value);
        LayoutGrows(x', LayoutNode(b.head, y).value, tail, b.tail, s, t);
  }

  lemma {:induction false} NodeGrows(x: State, y: State, a: Node, b: Node, s: string, t: string)
    requires NoLonger(x, y) && Alike(Cons(a, End), Cons(b, End), s, t) && |s| < |t|
    ensures match LayoutNode(a, x)
            case Err(_) => LayoutNode(b, y).Err?
            case Ok(x') => LayoutNode(b, y).Ok? && GrowsMore(x, y, x', LayoutNode(b, y).value, a != b)
    decreases a
  {
    hide PutToken, PutRaw, Layout;
    match a
    case Leaf(token) => TokenGrows(x, y, token, b.token, s, t);
    case RawFile(_, text) => RawGrows(x, y, text);
    case File(_, body) => LayoutGrows(EnterFrame(x), EnterFrame(y), body, b.body, s, t);
  }

  // ---- The build under another title ----

  /** What the page's template inlines to. */
  function Document(files: Files, page: Page): Doc
    requires Key(page.template) in files
  {
    InlineText(files, page, files[Key(page.template)], {})
  }

  /**
   Under a shorter title a page builds exactly when it did, from the same files, and to the
   same output exactly when the title is printed nowhere: the documents are the same.
   */
  lemma ShorterTitle(files: Files, page: Page, title: string)
    requires |title| < |page.title|
    ensures BuildPage(files, page).Ok? <==> BuildPage(files, page.(title := title)).Ok?
    ensures BuildPage(files, page).Ok? ==>
              var a, b := BuildPage(files, page.(title := title)).value, BuildPage(files, page).value;
              && Key(page.template) in files
              && a.dependencies == b.dependencies
              && (a.output == b.output <==> Document(files, page.(title := title)) == Document(files, page))
  {
    if page.template != "" && Key(page.content) in files && Key(page.template) in files {
      var short := page.(title := title);
      BuildPageSteps(files, page);
      BuildPageSteps(files, short);
      var text := files[Key(page.template)];
      hide BuildPage, Key;
      TokensAlike(short, page.title, text, 0);
      assert short.(title := page.title) == page;
      InlineAlike(files, short, page.title, Tokens(short, text, 0), Tokens(page, text, 0), {});
      var a, b := InlineText(files, short, text, {}), InlineText(files, page, text, {});
      AlikeReads(a, b, title, page.title);
      LayoutGrows(EnterFrame(START), EnterFrame(START), a, b, title, page.title);
      hide Inline, Layout, Tokens, Reads;
    }
  }
}
