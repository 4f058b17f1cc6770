/**
 What layout keeps: the tracked indentation is always the whitespace image of the line being
 written, inlined lines hang from the caller's column, and pre blocks balance per file.
 */
module Indentation {
  import opened Expansion
  import opened Paths
  import opened Results
  import opened Templates
  import opened Text

  /** indentAmount is the whitespace image of the line being written. */
  predicate Aligned(st: State) {
    st.indent == IntoWhitespace(LastLine(st.out))
  }

  /**
   The frame of the running call. Outside the pre blocks it opened itself, lines start with
   the indentation it was entered with; inside them, with nothing.
   */
  predicate FrameOk(st: State) {
    && 0 <= st.frame.depth <= st.codeDepth
    && AllBlank(st.frame.entry)
    && (st.frame.depth == 0 && st.codeDepth > 0 ==> st.frame.base == "" && st.frame.before == st.frame.entry)
    && (st.frame.depth > 0 || st.codeDepth == 0 ==> st.frame.base == st.frame.entry)
  }

  /** Outside the pre blocks opened by the running call. */
  predicate OutsideOwnPre(st: State) {
    st.frame.depth > 0 || st.codeDepth == 0
  }

  /** Emitted texts hold no newline; only titles and names could. */
  predicate SingleLine(doc: Doc) {
    match doc
    case End => true
    case Cons(Leaf(token), tail) => (token.Emit? ==> '\n' !in token.text) && SingleLine(tail)
    case Cons(File(_, body), tail) => SingleLine(body) && SingleLine(tail)
    case Cons(RawFile(_, _), tail) => SingleLine(tail)
  }

  lemma LexEmitsOneLine(page: Page, s: string, i: nat)
    requires i < |s| && s[i] != '\n'
    requires '\n' !in page.title && '\n' !in page.name
    ensures var token := Lex(page, s, i).token; token.Emit? ==> '\n' !in token.text
  {
  }

  lemma {:induction false} TokensEmitOneLine(page: Page, s: string, i: nat)
    requires '\n' !in page.title && '\n' !in page.name
    ensures forall t | t in Tokens(page, s, i) :: t.Emit? ==> '\n' !in t.text
    decreases |s| - i
  {
    if i < |s| && s[i] == '\n' {
      TokensEmitOneLine(page, s, i + 1);
    } else if i < |s| {
      LexEmitsOneLine(page, s, i);
      var lexeme := Lex(page, s, i);
      TokensEmitOneLine(page, s, lexeme.next);
    }
  }

  lemma {:induction false} InlineIsSingleLine(files: Files, page: Page, tokens: seq<Token>, anti: set<string>)
    requires '\n' !in page.title && '\n' !in page.name
    requires forall t | t in tokens :: t.Emit? ==> '\n' !in t.text
    ensures SingleLine(Inline(files, page, tokens, anti))
    decreases files.Keys - anti, |tokens|
  {
    if tokens == [] {
    } else {
      InlineIsSingleLine(files, page, tokens[1..], anti);
      var token := tokens[0];
      if token.Input? && !token.raw && Key(token.path) in files && Key(token.path) !in anti {
        var text := files[Key(token.path)];
        TokensEmitOneLine(page, text, 0);
        InlineIsSingleLine(files, page, Tokens(page, text, 0), anti + {Key(token.path)});
      }
    }
  }

  // ---- Each step keeps the indentation aligned ----

  /** Writing a text keeps the indentation aligned exactly when the text stays on the line. */
  lemma PutAlignedIff(st: State, text: string)
    requires Aligned(st)
    ensures Aligned(Put(st, text)) <==> '\n' !in text
  {
    LastLineConcat(st.out, text);
    if '\n' in text {
      assert |LastLine(text)| <= |text|;
      assert LineStart(text) > 0;
    } else {
      IntoWhitespaceConcat(LastLine(st.out), text);
    }
  }

  lemma LineOfBreak(out: string, line: string)
    requires '\n' !in line
    ensures LastLine(out + "\n" + line) == line
  {
    hide LineStart;
    var s := out + "\n" + line;
    var i := LineStart(s);
    assert s[|out|] == '\n';
    assert forall j | |out| < j < |s| :: s[j] == line[j - |out| - 1];
    assert i == |out| + 1;
  }

  lemma PutNewlineAligned(st: State)
    requires AllBlank(st.frame.base)
    ensures Aligned(PutNewline(st)) && LastLine(PutNewline(st).out) == st.frame.base
  {
    LineOfBreak(st.out, st.frame.base);
    IntoWhitespaceOfBlank(st.frame.base);
  }

  /** The last line of lines joined by breaks is the last of them after its indent. */
  lemma {:induction false} LastLineOfJoin(lines: seq<string>, indent: string)
    requires lines != [] && AllBlank(indent)
    requires forall k | 0 <= k < |lines| :: '\n' !in lines[k]
    ensures var joined := Join(lines, "\n" + indent);
            if |lines| == 1 then joined == lines[0]
            else '\n' in joined && LastLine(joined) == indent + lines[|lines| - 1]
  {
    hide LastLine, LineStart;
    if |lines| == 1 {
    } else {
      hide Join, AllBlank;
      var rest := Join(lines[1..], "\n" + indent);
      LastLineOfJoin(lines[1..], indent);
      var joined := Join(lines, "\n" + indent);
      var head := lines[0] + "\n" + indent;
      JoinStep(lines, "\n" + indent);
      assert joined == head + rest by {
        assert joined == lines[0] + ("\n" + indent) + rest;
      }
      assert joined[|lines[0]|] == '\n';
      BlankHasNoBreak(indent);
      LineOfBreak(lines[0], indent);
      LastLineConcat(head, rest);
    }
  }

  lemma PutRawAligned(st: State, text: string)
    requires Aligned(st)
    ensures Aligned(PutRaw(st, text))
  {
    var lines := Lines(text);
    var last := lines[|lines| - 1];
    var joined := Join(lines, "\n" + st.indent);
    LastLineOfJoin(lines, st.indent);
    LastLineConcat(st.out, joined);
    if |lines| == 1 {
      IntoWhitespaceConcat(LastLine(st.out), last);
    } else {
      IntoWhitespaceConcat(st.indent, last);
      IntoWhitespaceOfBlank(st.indent);
    }
  }

  /** What a step leaves alone in the running frame. */
  predicate SameCall(st: State, st': State) {
    st'.frame.depth == st.frame.depth && st'.frame.entry == st.frame.entry
  }

  lemma CloseTagKeeps(st: State)
    requires Aligned(st) && FrameOk(st) && CloseTag(st).codeDepth >= st.frame.depth
    ensures Aligned(CloseTag(st)) && FrameOk(CloseTag(st)) && SameCall(st, CloseTag(st))
  {
  }

  lemma OpenTagKeeps(st: State)
    requires Aligned(st) && FrameOk(st)
    ensures Aligned(OpenTag(st)) && FrameOk(OpenTag(st)) && SameCall(st, OpenTag(st))
  {
  }

  lemma CommentDepthKeeps(st: State, depth: int)
    requires Aligned(st) && FrameOk(st)
    ensures var st' := st.(commentDepth := depth); Aligned(st') && FrameOk(st') && SameCall(st, st')
  {
  }

  lemma PutKeeps(st: State, text: string)
    requires Aligned(st) && FrameOk(st) && '\n' !in text
    ensures Aligned(Put(st, text)) && FrameOk(Put(st, text)) && SameCall(st, Put(st, text))
  {
    PutAlignedIff(st, text);
  }

  lemma PutLtKeeps(st: State, token: Token)
    requires token.Lt? && Aligned(st) && FrameOk(st) && PutLt(st, token).Ok?
    ensures Aligned(PutLt(st, token).value) && FrameOk(PutLt(st, token).value)
    ensures SameCall(st, PutLt(st, token).value)
  {
    hide Aligned, FrameOk, Put, OpenTag;
    var closes := st.commentDepth == 0 && token.closePre;
    var st1 := if closes then CloseTag(st) else st;
    if closes {
      CloseTagKeeps(st);
    }
    var text := if st1.codeDepth > 0 && !token.isCode then "&lt;" else "<";
    var st2 := Put(st1, text);
    PutKeeps(st1, text);
    var st3 := if st.commentDepth == 0 && token.openPre then OpenTag(st2) else st2;
    OpenTagKeeps(st2);
    CommentDepthKeeps(st3, st3.commentDepth + 1);
  }

  lemma PutTokenKeeps(st: State, token: Token)
    requires Aligned(st) && FrameOk(st) && PutToken(st, token).Ok?
    requires token.Emit? ==> '\n' !in token.text
    ensures Aligned(PutToken(st, token).value) && FrameOk(PutToken(st, token).value)
    ensures SameCall(st, PutToken(st, token).value)
  {
    match token
    case Emit(text) => PutAlignedIff(st, text);
    case Newline => PutNewlineAligned(st);
    case Lt(_, _, _, _) => PutLtKeeps(st, token);
    case CloseComment =>
      CommentDepthKeeps(st, st.commentDepth - 1);
      PutKeeps(st.(commentDepth := st.commentDepth - 1), "-");
    case _ =>
  }

  lemma EnterFrameOk(st: State)
    requires Aligned(st) && FrameOk(st)
    ensures Aligned(EnterFrame(st)) && FrameOk(EnterFrame(st))
    ensures EnterFrame(st).frame.entry == IntoWhitespace(LastLine(st.out))
  {
  }

  // ---- Whole documents ----

  /** The states layout passes through: before every node, inside nested files too. */
  function Trace(doc: Doc, st: State): seq<State>
    decreases doc
  {
    match doc
    case End => [st]
    case Cons(node, tail) =>
      [st]
      + (if node.File? then Trace(node.body, EnterFrame(st)) else [])
      + (match LayoutNode(node, st)
         case Err(_) => []
         case Ok(st') => Trace(tail, st'))
  }

  /**
   The indentation invariant over a whole expansion. At every moment, through text, pre
   blocks, raw inputs and nested files, the tracked indentation is the whitespace image of
   the line being written, and the running call's frame is in order.
   */
  lemma {:induction false} LayoutKeepsAlignment(doc: Doc, st: State)
    requires Aligned(st) && FrameOk(st) && SingleLine(doc)
    ensures forall v | v in Trace(doc, st) :: Aligned(v) && FrameOk(v)
    ensures Layout(doc, st).Ok? ==>
              var st' := Layout(doc, st).value;
              && Aligned(st') && FrameOk(st')
              && SameCall(st, st')
    decreases doc
  {
    match doc
    case End =>
    case Cons(node, tail) =>
      if node.File? {
        EnterFrameOk(st);
        LayoutKeepsAlignment(node.body, EnterFrame(st));
      }
      if LayoutNode(node, st).Ok? {
        NodeKeepsAlignment(node, st);
        LayoutKeepsAlignment(tail, LayoutNode(node, st).value);
      }
  }

  lemma {:induction false} NodeKeepsAlignment(node: Node, st: State)
    requires Aligned(st) && FrameOk(st) && SingleLine(Cons(node, End)) && LayoutNode(node, st).Ok?
    ensures var st' := LayoutNode(node, st).value;
            && Aligned(st') && FrameOk(st')
            && SameCall(st, st')
            && (node.File? ==> st'.codeDepth == st.codeDepth)
    decreases node
  {
    match node
    case Leaf(token) => PutTokenKeeps(st, token);
    case RawFile(_, text) => PutRawAligned(st, text);
    case File(_, body) =>
      EnterFrameOk(st);
      LayoutKeepsAlignment(body, EnterFrame(st));
  }

  lemma TraceStarts(doc: Doc, st: State)
    ensures st in Trace(doc, st)
  {
  }

  /** The states of a node and of what follows it, as part of the whole trace. */
  lemma TraceParts(node: Node, tail: Doc, st: State)
    requires LayoutNode(node, st).Ok?
    ensures node.File? ==> forall v | v in Trace(node.body, EnterFrame(st)) :: v in Trace(Cons(node, tail), st)
    ensures forall v | v in Trace(tail, LayoutNode(node, st).value) :: v in Trace(Cons(node, tail), st)
    ensures forall v | v in Trace(Cons(node, tail), st) ::
              || v == st
              || (node.File? && v in Trace(node.body, EnterFrame(st)))
              || v in Trace(tail, LayoutNode(node, st).value)
  {
    hide LayoutNode;
  }

  /** A node that prints a line break leaves the indentation wrong. */
  lemma BreakMisaligns(node: Node, tail: Doc, st: State)
    requires Aligned(st) && LayoutNode(node, st).Ok? && SingleLine(tail) && !SingleLine(Cons(node, tail))
    ensures if node.File? then !SingleLine(node.body) else !Aligned(LayoutNode(node, st).value)
  {
    hide Layout, Aligned;
    if node.Leaf? {
      PutAlignedIff(st, node.token.text);
    }
  }

  lemma NodeSingleLine(node: Node, tail: Doc)
    ensures SingleLine(Cons(node, tail)) <==> SingleLine(Cons(node, End)) && SingleLine(tail)
  {
  }

  /**
   Exactly when the indentation stays right. In an expansion that succeeds, the tracked
   indentation is the whitespace image of the line being written at every moment if and only if
   no title or name printed holds a line break.
   */
  lemma {:induction false} LayoutAlignedIff(doc: Doc, st: State)
    requires Aligned(st) && FrameOk(st) && Layout(doc, st).Ok?
    ensures (forall v | v in Trace(doc, st) :: Aligned(v)) <==> SingleLine(doc)
    decreases doc
  {
    if SingleLine(doc) {
      LayoutKeepsAlignment(doc, st);
    } else if doc.Cons? {
      var st' := LayoutNode(doc.head, st).value;
      TraceParts(doc.head, doc.tail, st);
      TraceStarts(doc.tail, st');
      NodeSingleLine(doc.head, doc.tail);
      EnterFrameOk(st);
      BrokenBody(doc.head, st);
      hide Trace, Layout, LayoutNode, Aligned, FrameOk, SingleLine;
      if SingleLine(Cons(doc.head, End)) {
        NodeKeepsAlignment(doc.head, st);
        LayoutAlignedIff(doc.tail, st');
      } else {
        BreakMisaligns(doc.head, End, st) by { EndIsSingleLine(); }
        if doc.head.File? {
          LayoutAlignedIff(doc.head.body, EnterFrame(st));
        }
      }
    }
  }

  lemma EndIsSingleLine()
    ensures SingleLine(End)
  {
  }

  lemma BrokenBody(node: Node, st: State)
    requires LayoutNode(node, st).Ok?
    ensures node.File? ==> Layout(node.body, EnterFrame(st)).Ok?
  {
  }

  /**
   A new line outside the running call's own pre blocks starts with the indentation the call
   was entered with: for an inlined file, the whitespace image of its caller's column.
   */
  lemma NewlineHangsFromCaller(st: State)
    requires FrameOk(st) && OutsideOwnPre(st)
    ensures LastLine(PutNewline(st).out) == st.frame.entry
  {
    PutNewlineAligned(st);
  }

  // ---- Inlined text hangs from the caller's column ----

  /** Every line after the first starts with the given indentation. */
  predicate Hangs(block: string, entry: string) {
    forall k | 0 <= k < |block| && block[k] == '\n' :: LooksAt(block, k + 1, entry)
  }

  /** Output has grown by text that hangs from entry, and the indentation still starts with it. */
  predicate GrowsHanging(st: State, st': State, entry: string) {
    st.out <= st'.out && Hangs(st'.out[|st.out|..], entry) && entry <= st'.indent
  }

  lemma LooksAtConcat(a: string, b: string, i: nat, pat: string)
    requires LooksAt(a, i, pat)
    ensures LooksAt(a + b, i, pat)
  {
    assert (a + b)[i..i + |pat|] == a[i..i + |pat|];
  }

  lemma LooksAtShifted(a: string, b: string, i: nat, pat: string)
    requires LooksAt(b, i, pat)
    ensures LooksAt(a + b, |a| + i, pat)
  {
    assert (a + b)[|a| + i..|a| + i + |pat|] == b[i..i + |pat|];
  }

  lemma HangsConcat(a: string, b: string, entry: string)
    requires Hangs(a, entry) && Hangs(b, entry)
    ensures Hangs(a + b, entry)
  {
    forall k | 0 <= k < |a + b| && (a + b)[k] == '\n'
      ensures LooksAt(a + b, k + 1, entry)
    {
      if k < |a| {
        LooksAtConcat(a, b, k + 1, entry);
      } else {
        LooksAtShifted(a, b, k - |a| + 1, entry);
      }
    }
  }

  lemma HangsLess(block: string, entry: string, prefix: string)
    requires Hangs(block, entry) && prefix <= entry
    ensures Hangs(block, prefix)
  {
    forall k | 0 <= k < |block| && block[k] == '\n'
      ensures LooksAt(block, k + 1, prefix)
    {
      assert block[k + 1..k + 1 + |prefix|] == block[k + 1..k + 1 + |entry|][..|prefix|];
    }
  }

  lemma BreakHangs(indent: string)
    requires AllBlank(indent)
    ensures Hangs("\n" + indent, indent)
  {
    assert ("\n" + indent)[1..1 + |indent|] == indent;
  }

  lemma GrowsTransitive(st: State, st1: State, st2: State, entry: string)
    requires GrowsHanging(st, st1, entry) && GrowsHanging(st1, st2, entry)
    ensures GrowsHanging(st, st2, entry)
  {
    var a, b := st1.out[|st.out|..], st2.out[|st1.out|..];
    assert st2.out[|st.out|..] == a + b;
    HangsConcat(a, b, entry);
  }

  lemma PutGrows(st: State, text: string, entry: string)
    requires '\n' !in text && entry <= st.indent
    ensures GrowsHanging(st, Put(st, text), entry)
  {
    assert Put(st, text).out[|st.out|..] == text;
  }

  lemma PutNewlineGrows(st: State)
    requires FrameOk(st) && OutsideOwnPre(st)
    ensures GrowsHanging(st, PutNewline(st), st.frame.entry)
  {
    var entry := st.frame.entry;
    assert PutNewline(st).out == st.out + ("\n" + entry);
    assert PutNewline(st).out[|st.out|..] == "\n" + entry;
    BreakHangs(entry);
  }

  lemma {:induction false} JoinHangs(lines: seq<string>, indent: string)
    requires lines != [] && AllBlank(indent)
    requires forall k | 0 <= k < |lines| :: '\n' !in lines[k]
    ensures Hangs(Join(lines, "\n" + indent), indent)
  {
    if |lines| <= 1 {
    } else {
      JoinHangs(lines[1..], indent);
      BreakHangs(indent);
      assert Hangs(lines[0], indent);
      HangsConcat(lines[0], "\n" + indent, indent);
      HangsConcat(lines[0] + ("\n" + indent), Join(lines[1..], "\n" + indent), indent);
    }
  }

  lemma PutRawGrows(st: State, text: string, entry: string)
    requires Aligned(st) && entry <= st.indent
    ensures GrowsHanging(st, PutRaw(st, text), entry)
  {
    var joined := Join(Lines(text), "\n" + st.indent);
    JoinHangs(Lines(text), st.indent);
    HangsLess(joined, st.indent, entry);
    assert PutRaw(st, text).out[|st.out|..] == joined;
  }

  /** No pre tag anywhere in the document. */
  predicate PreFree(doc: Doc) {
    match doc
    case End => true
    case Cons(Leaf(token), tail) => (token.Lt? ==> !token.openPre && !token.closePre) && PreFree(tail)
    case Cons(File(_, body), tail) => PreFree(body) && PreFree(tail)
    case Cons(RawFile(_, _), tail) => PreFree(tail)
  }

  lemma PutTokenGrows(st: State, token: Token)
    requires Aligned(st) && FrameOk(st) && OutsideOwnPre(st) && PutToken(st, token).Ok?
    requires token.Emit? ==> '\n' !in token.text
    requires token.Lt? ==> !token.openPre && !token.closePre
    requires st.frame.entry <= st.indent
    ensures GrowsHanging(st, PutToken(st, token).value, st.frame.entry)
    ensures PutToken(st, token).value.codeDepth == st.codeDepth
  {
    match token
    case Emit(text) => PutGrows(st, text, st.frame.entry);
    case Newline => PutNewlineGrows(st);
    case Lt(_, _, _, _) => PutGrows(st, if st.codeDepth > 0 && !token.isCode then "&lt;" else "<", st.frame.entry);
    case CloseComment => PutGrows(st, "-", st.frame.entry);
    case _ =>
  }

  /**
   Without pre tags nesting adds up: everything laid out, the lines of nested files too, hangs
   from the indentation the running call was entered with.
   */
  lemma {:induction false} PreFreeLayoutHangs(doc: Doc, st: State)
    requires Aligned(st) && FrameOk(st) && OutsideOwnPre(st) && st.frame.entry <= st.indent
    requires SingleLine(doc) && PreFree(doc) && Layout(doc, st).Ok?
    ensures GrowsHanging(st, Layout(doc, st).value, st.frame.entry)
    decreases doc, 0
  {
    match doc
    case End =>
    case Cons(node, tail) =>
      PreFreeNodeHangs(node, st);
      NodeKeepsAlignment(node, st);
      var st1 := LayoutNode(node, st).value;
      PreFreeLayoutHangs(tail, st1);
      GrowsTransitive(st, st1, Layout(tail, st1).value, st.frame.entry);
  }

  lemma {:induction false} PreFreeNodeHangs(node: Node, st: State)
    requires Aligned(st) && FrameOk(st) && OutsideOwnPre(st) && st.frame.entry <= st.indent
    requires SingleLine(Cons(node, End)) && PreFree(Cons(node, End)) && LayoutNode(node, st).Ok?
    ensures GrowsHanging(st, LayoutNode(node, st).value, st.frame.entry)
    ensures OutsideOwnPre(LayoutNode(node, st).value)
    decreases node, 0
  {
    match node
    case Leaf(token) =>
      PutTokenGrows(st, token);
      PutTokenKeeps(st, token);
    case RawFile(_, text) => PutRawGrows(st, text, st.frame.entry);
    case File(_, body) =>
      PreFreeFileHangs(body, st);
      var st' := LayoutNode(node, st).value;
      NodeKeepsAlignment(node, st);
      HangsLess(st'.out[|st.out|..], st.indent, st.frame.entry);
  }

  /** So an inlined file, with all that is nested in it, hangs from the column of its input. */
  lemma {:induction false} PreFreeFileHangs(body: Doc, st: State)
    requires Aligned(st) && FrameOk(st)
    requires SingleLine(body) && PreFree(body) && Layout(body, EnterFrame(st)).Ok?
    ensures var out' := Layout(body, EnterFrame(st)).value.out;
            && GrowsHanging(st, Layout(body, EnterFrame(st)).value, st.indent)
            && st.out <= out' && Hangs(out'[|st.out|..], IntoWhitespace(LastLine(st.out)))
    decreases body, 1
  {
    EnterFrameOk(st);
    PreFreeLayoutHangs(body, EnterFrame(st));
  }

  // ---- Every line of the output, through pre blocks ----

  /** The states in which the running call itself, not a file nested in it, starts a new line. */
  function OwnBreaks(doc: Doc, st: State): seq<State>
    decreases doc
  {
    match doc
    case End => []
    case Cons(node, tail) =>
      (if node == Leaf(Newline) then [st] else [])
      + (match LayoutNode(node, st)
         case Err(_) => []
         case Ok(st') => OwnBreaks(tail, st'))
  }

  /** A line break of the output, and what the line after it starts with. */
  datatype Break = Break(at: nat, lead: string)

  function BreaksIn(text: string, at: nat, lead: string): seq<Break> {
    if text == "" then []
    else (if text[0] == '\n' then [Break(at, lead)] else []) + BreaksIn(text[1..], at + 1, lead)
  }

  /**
   The line breaks a document lays out, nested files and raw inputs included. A call's own line
   starts with the whitespace image of the column its file was input at, inside its own pre
   blocks with nothing; a raw input's with that of the column it was itself input at.
   */
  function LineBreaks(doc: Doc, st: State): seq<Break>
    decreases doc, 1
  {
    match doc
    case End => []
    case Cons(node, tail) =>
      NodeBreaks(node, st)
      + (match LayoutNode(node, st)
         case Err(_) => []
         case Ok(st') => LineBreaks(tail, st'))
  }

  function NodeBreaks(node: Node, st: State): seq<Break>
    decreases node, 0
  {
    match node
    case Leaf(token) =>
      if token.Newline? then [Break(|st.out|, if OutsideOwnPre(st) then st.frame.entry else "")] else []
    case RawFile(_, text) =>
      BreaksIn(Join(Lines(text), "\n" + st.indent), |st.out|, IntoWhitespace(LastLine(st.out)))
    case File(_, body) => LineBreaks(body, EnterFrame(st))
  }

  /** A break is where it is said to be, and its line starts as it should. */
  predicate BreakHolds(out: string, b: Break) {
    b.at < |out| && out[b.at] == '\n' && LooksAt(out, b.at + 1, b.lead)
  }

  /** From a position on, the breaks of the output are just these. */
  ghost predicate BrokenAt(out: string, from: nat, breaks: seq<Break>) {
    && (forall b | b in breaks :: from <= b.at && BreakHolds(out, b))
    && (forall k | from <= k < |out| && out[k] == '\n' :: HasBreak(breaks, k))
  }

  predicate HasBreak(breaks: seq<Break>, k: nat) {
    exists b | b in breaks :: b.at == k
  }

  lemma HasBreakConcat(a: seq<Break>, b: seq<Break>, k: nat)
    ensures HasBreak(a + b, k) <==> HasBreak(a, k) || HasBreak(b, k)
  {
    if HasBreak(a, k) {
      var x :| x in a && x.at == k;
      assert x in a + b;
    } else if HasBreak(b, k) {
      var x :| x in b && x.at == k;
      assert x in a + b;
    }
  }

  lemma BrokenThen(a: string, b: string, from: nat, first: seq<Break>, second: seq<Break>)
    requires from <= |a| && a <= b
    requires BrokenAt(a, from, first) && BrokenAt(b, |a|, second)
    ensures BrokenAt(b, from, first + second)
  {
    hide HasBreak, LooksAt;
    forall x | x in first + second
      ensures from <= x.at && BreakHolds(b, x)
    {
      if x in first {
        assert b == a + b[|a|..];
        LooksAtConcat(a, b[|a|..], x.at + 1, x.lead);
      }
    }
    forall k | from <= k < |b| && b[k] == '\n'
      ensures HasBreak(first + second, k)
    {
      HasBreakConcat(first, second, k);
      assert k < |a| ==> a[k] == '\n';
    }
  }

  lemma {:induction false} BreaksInAre(text: string, at: nat, lead: string, k: nat)
    ensures HasBreak(BreaksIn(text, at, lead), k) <==> at <= k < at + |text| && text[k - at] == '\n'
    decreases |text|
  {
    if text == "" {
    } else {
      var first := if text[0] == '\n' then [Break(at, lead)] else [];
      assert HasBreak(first, k) <==> text[0] == '\n' && k == at by {
        assert text[0] == '\n' ==> Break(at, lead) in first;
      }
      BreaksInAre(text[1..], at + 1, lead, k);
      assert at < k < at + |text| ==> text[k - at] == text[1..][k - at - 1];
      HasBreakConcat(first, BreaksIn(text[1..], at + 1, lead), k);
      hide HasBreak;
    }
  }

  lemma {:induction false} BreaksLead(text: string, at: nat, lead: string)
    ensures forall b | b in BreaksIn(text, at, lead) :: b.lead == lead && at <= b.at
    decreases |text|
  {
    if text == "" {
    } else {
      BreaksLead(text[1..], at + 1, lead);
    }
  }

  lemma BlockBroken(out: string, block: string, lead: string)
    requires Hangs(block, lead)
    ensures BrokenAt(out + block, |out|, BreaksIn(block, |out|, lead))
  {
    hide LooksAt, BreaksIn;
    BreaksLead(block, |out|, lead);
    forall b | b in BreaksIn(block, |out|, lead)
      ensures |out| <= b.at && BreakHolds(out + block, b)
    {
      assert HasBreak(BreaksIn(block, |out|, lead), b.at);
      BreaksInAre(block, |out|, lead, b.at);
      LooksAtShifted(out, block, b.at - |out| + 1, lead);
    }
    forall k | |out| <= k < |out + block| && (out + block)[k] == '\n'
      ensures HasBreak(BreaksIn(block, |out|, lead), k)
    {
      BreaksInAre(block, |out|, lead, k);
    }
  }

  lemma RawBroken(st: State, text: string)
    requires Aligned(st)
    ensures BrokenAt(PutRaw(st, text).out, |st.out|, NodeBreaks(RawFile("", text), st))
  {
    hide Join, Lines, LastLine, IntoWhitespace, BrokenAt, BreaksIn, Hangs;
    JoinHangs(Lines(text), st.indent);
    BlockBroken(st.out, Join(Lines(text), "\n" + st.indent), st.indent);
  }

  lemma NewlineBroken(st: State)
    requires FrameOk(st)
    ensures BrokenAt(PutNewline(st).out, |st.out|, NodeBreaks(Leaf(Newline), st))
  {
    BaseIsLead(st);
    hide FrameOk, OutsideOwnPre, BrokenAt;
    BreakHangs(st.frame.base);
    BlockBroken(st.out, "\n" + st.frame.base, st.frame.base);
    assert PutNewline(st).out == st.out + ("\n" + st.frame.base);
    OneBreak(st.frame.base, |st.out|);
  }

  lemma OneBreak(lead: string, at: nat)
    requires AllBlank(lead)
    ensures BreaksIn("\n" + lead, at, lead) == [Break(at, lead)]
  {
    assert ("\n" + lead)[1..] == lead;
    NoBreaks(lead, at + 1, lead);
  }

  lemma {:induction false} NoBreaks(text: string, at: nat, lead: string)
    requires AllBlank(text)
    ensures BreaksIn(text, at, lead) == []
    decreases |text|
  {
    if text == "" {
    } else {
      NoBreaks(text[1..], at + 1, lead);
    }
  }

  lemma BaseIsLead(st: State)
    requires FrameOk(st)
    ensures st.frame.base == if OutsideOwnPre(st) then st.frame.entry else ""
    ensures AllBlank(st.frame.base)
  {
  }

  /** What a token other than a newline writes. */
  lemma LtText(st: State, token: Token) returns (text: string)
    requires token.Lt? && PutLt(st, token).Ok?
    ensures '\n' !in text && PutLt(st, token).value.out == st.out + text
  {
    hide IntoWhitespace;
    var st1 := if st.commentDepth == 0 && token.closePre then CloseTag(st) else st;
    text := if st1.codeDepth > 0 && !token.isCode then "&lt;" else "<";
  }

  lemma TokenText(st: State, token: Token) returns (text: string)
    requires !token.Newline? && PutToken(st, token).Ok? && (token.Emit? ==> '\n' !in token.text)
    ensures '\n' !in text && PutToken(st, token).value.out == st.out + text
  {
    hide IntoWhitespace, PutLt;
    match token
    case Emit(t) => text := t;
    case Lt(_, _, _, _) => text := LtText(st, token);
    case CloseComment => text := "-";
    case _ => text := "";
  }

  lemma TextBroken(out: string, text: string)
    requires '\n' !in text
    ensures BrokenAt(out + text, |out|, [])
  {
  }

  lemma TokenBroken(st: State, token: Token)
    requires FrameOk(st) && PutToken(st, token).Ok? && (token.Emit? ==> '\n' !in token.text)
    ensures st.out <= PutToken(st, token).value.out
    ensures BrokenAt(PutToken(st, token).value.out, |st.out|, NodeBreaks(Leaf(token), st))
  {
    hide BrokenAt;
    if token.Newline? {
      NewlineBroken(st);
    } else {
      hide PutToken;
      var text := TokenText(st, token);
      TextBroken(st.out, text);
    }
  }

  /**
   Every line of an expansion, in full: the line breaks laid out are just those listed, and the
   line after each starts as listed, through pre blocks, raw inputs and nested files.
   */
  lemma {:induction false} LinesHang(doc: Doc, st: State)
    requires Aligned(st) && FrameOk(st) && SingleLine(doc) && Layout(doc, st).Ok?
    ensures var out := Layout(doc, st).value.out;
            st.out <= out && BrokenAt(out, |st.out|, LineBreaks(doc, st))
    decreases doc, 1
  {
    match doc
    case End =>
    case Cons(node, tail) =>
      NodeLinesHang(node, st);
      NodeKeepsAlignment(node, st);
      var st1 := LayoutNode(node, st).value;
      LinesHang(tail, st1);
      BrokenThen(st1.out, Layout(tail, st1).value.out, |st.out|, NodeBreaks(node, st), LineBreaks(tail, st1));
  }

  lemma {:induction false} NodeLinesHang(node: Node, st: State)
    requires Aligned(st) && FrameOk(st) && SingleLine(Cons(node, End)) && LayoutNode(node, st).Ok?
    ensures var out := LayoutNode(node, st).value.out;
            st.out <= out && BrokenAt(out, |st.out|, NodeBreaks(node, st))
    decreases node, 0
  {
    match node
    case Leaf(token) => TokenBroken(st, token);
    case RawFile(_, text) => RawBroken(st, text);
    case File(_, body) =>
      EnterFrameOk(st);
      LinesHang(body, EnterFrame(st));
  }

  /** A call's own lines among those of its output. */
  lemma {:induction false} OwnLinesHang(doc: Doc, st: State)
    requires Aligned(st) && FrameOk(st) && SingleLine(doc) && Layout(doc, st).Ok?
    ensures forall v | v in OwnBreaks(doc, st) && OutsideOwnPre(v) ::
              v.out + "\n" + st.frame.entry <= Layout(doc, st).value.out
    decreases doc
  {
    match doc
    case End =>
    case Cons(node, tail) =>
      NodeKeepsAlignment(node, st);
      var st1 := LayoutNode(node, st).value;
      OwnLinesHang(tail, st1);
      LinesHang(tail, st1);
      BaseIsLead(st);
  }

  /**
   An inlined file hangs from the column of its input: each line the file itself starts outside
   its own pre blocks starts, in the output, with the whitespace image of that column.
   */
  lemma FileHangs(body: Doc, st: State)
    requires Aligned(st) && FrameOk(st) && SingleLine(body) && Layout(body, EnterFrame(st)).Ok?
    ensures forall v | v in OwnBreaks(body, EnterFrame(st)) && OutsideOwnPre(v) ::
              v.out + "\n" + IntoWhitespace(LastLine(st.out)) <= Layout(body, EnterFrame(st)).value.out
  {
    EnterFrameOk(st);
    hide Layout, OwnBreaks, LastLine, IntoWhitespace;
    OwnLinesHang(body, EnterFrame(st));
  }

  /** A raw input hangs from its column, pre blocks or not: each of its lines after the first starts with its image. */
  lemma RawHangs(st: State, text: string)
    requires Aligned(st)
    ensures st.out <= PutRaw(st, text).out
    ensures Hangs(PutRaw(st, text).out[|st.out|..], IntoWhitespace(LastLine(st.out)))
  {
    hide IntoWhitespace, LastLine;
    PutRawGrows(st, text, st.indent);
  }

  // ---- Tags ----

  /** The pre and comment depths after a token, or None when it closes a pre block of another file. */
  function TokenDepths(token: Token, codeDepth: int, commentDepth: int, callDepth: int): Option<(int, int)> {
    if token.CloseComment? then Some((codeDepth, commentDepth - 1))
    else if token.Lt? then
      if commentDepth == 0 && token.closePre && codeDepth - 1 < callDepth then None
      else
        Some((codeDepth - (if commentDepth == 0 && token.closePre then 1 else 0)
                        + (if commentDepth == 0 && token.openPre then 1 else 0),
              commentDepth + (if token.openComment then 1 else 0)))
    else Some((codeDepth, commentDepth))
  }

  lemma PutTokenDepths(st: State, token: Token)
    ensures var d := TokenDepths(token, st.codeDepth, st.commentDepth, st.frame.depth);
            match PutToken(st, token)
            case Err(_) => token.Fail? || d.None?
            case Ok(st') =>
              !token.Fail? && d == Some((st'.codeDepth, st'.commentDepth)) && st'.frame.depth == st.frame.depth
  {
  }

  /** The pre and comment depths after a document, or None when a pre tag does not match. */
  function TagDepths(doc: Doc, codeDepth: int, commentDepth: int, callDepth: int): Option<(int, int)>
    decreases doc
  {
    match doc
    case End => Some((codeDepth, commentDepth))
    case Cons(Leaf(token), tail) =>
      match TokenDepths(token, codeDepth, commentDepth, callDepth) {
        case None => None
        case Some(d) => TagDepths(tail, d.0, d.1, callDepth)
      }
    case Cons(RawFile(_, _), tail) => TagDepths(tail, codeDepth, commentDepth, callDepth)
    case Cons(File(_, body), tail) =>
      match TagDepths(body, codeDepth, commentDepth, codeDepth)
      case None => None
      case Some(inner) =>
        if inner.0 > codeDepth then None else TagDepths(tail, inner.0, inner.1, callDepth)
  }

  /** Layout succeeds exactly on clean documents whose pre tags match within each file. */
  lemma {:induction false} LayoutSucceedsIff(doc: Doc, st: State)
    ensures Layout(doc, st).Ok? <==> Clean(doc) && TagDepths(doc, st.codeDepth, st.commentDepth, st.frame.depth).Some?
    ensures Layout(doc, st).Ok? ==>
              var st' := Layout(doc, st).value;
              && st'.frame.depth == st.frame.depth
              && TagDepths(doc, st.codeDepth, st.commentDepth, st.frame.depth) ==
                  Some((st'.codeDepth, st'.commentDepth))
    decreases doc
  {
    match doc
    case End =>
    case Cons(node, tail) =>
      if node.File? {
        LayoutSucceedsIff(node.body, EnterFrame(st));
      } else if node.Leaf? {
        PutTokenDepths(st, node.token);
      }
      hide PutToken, TokenDepths;
      match LayoutNode(node, st)
      case Err(_) =>
      case Ok(st') => LayoutSucceedsIff(tail, st');
  }

  /** Without pre tags there is nothing to mismatch. */
  lemma {:induction false} PreFreeBalances(doc: Doc, codeDepth: int, commentDepth: int, callDepth: int)
    requires PreFree(doc)
    ensures var r := TagDepths(doc, codeDepth, commentDepth, callDepth);
            r.Some? && r.value.0 == codeDepth
    decreases doc
  {
    match doc
    case End =>
    case Cons(Leaf(token), tail) =>
      PreFreeBalances(tail, codeDepth, TokenDepths(token, codeDepth, commentDepth, callDepth).value.1, callDepth);
    case Cons(RawFile(_, _), tail) => PreFreeBalances(tail, codeDepth, commentDepth, callDepth);
    case Cons(File(_, body), tail) =>
      PreFreeBalances(body, codeDepth, commentDepth, codeDepth);
      PreFreeBalances(tail, codeDepth, TagDepths(body, codeDepth, commentDepth, codeDepth).value.1, callDepth);
  }
}
