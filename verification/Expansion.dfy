/**
 What expanding a template means. Inline is the denotation: the template with every input
 replaced, recursively, by the document of its file. Layout turns such a document into
 output, carrying the indentation and tag state across it. The build of a page is Inline
 followed by Layout; module Parsing proves the imperative scanner against it.
 */
module Expansion {
  import opened Paths
  import opened Results
  import opened Templates
  import opened Text

  /** A file system: the text of each file, by comparable path. */
  type Files = map<string, string>

  /** An inlined document. */
  datatype Doc = End | Cons(head: Node, tail: Doc)

  datatype Node =
    | Leaf(token: Token)
    | File(path: string, body: Doc)
    | RawFile(path: string, text: string)

  // ---- Inlining ----

  /** Expands tokens; anti holds the files being expanded further out. */
  function Inline(files: Files, page: Page, tokens: seq<Token>, anti: set<string>): (doc: Doc)
    decreases files.Keys - anti, |tokens|
  {
    if tokens == [] then End
    else
      var token := tokens[0];
      if token.Input? then
        var path := Key(token.path);
        if path !in files then Cons(Leaf(Fail(MissingFile(token.path))), End)
        else if token.raw then Cons(RawFile(path, files[path]), Inline(files, page, tokens[1..], anti))
        else if path in anti then Cons(Leaf(Fail(InputLoop(path))), End)
        else
          Cons(File(path, Inline(files, page, Tokens(page, files[path], 0), anti + {path})),
               Inline(files, page, tokens[1..], anti))
      else Cons(Leaf(token), Inline(files, page, tokens[1..], anti))
  }

  function InlineText(files: Files, page: Page, text: string, anti: set<string>): Doc {
    Inline(files, page, Tokens(page, text, 0), anti)
  }

  /** Every file read while producing a document, apart from the text it starts from. */
  function Reads(doc: Doc): set<string> {
    match doc
    case End => {}
    case Cons(File(path, body), tail) => {path} + Reads(body) + Reads(tail)
    case Cons(RawFile(path, _), tail) => {path} + Reads(tail)
    case Cons(Leaf(_), tail) => Reads(tail)
  }

  /** Nothing in the document failed to be read or inlined. */
  predicate Clean(doc: Doc) {
    match doc
    case End => true
    case Cons(File(_, body), tail) => Clean(body) && Clean(tail)
    case Cons(RawFile(_, _), tail) => Clean(tail)
    case Cons(Leaf(token), tail) => !token.Fail? && Clean(tail)
  }

  // ---- Layout ----

  /**
   The locals of one n_read_and_process_fast call. entry is the indentation at its start;
   the code keeps only base and before, from which it is recovered.
   */
  datatype Frame = Frame(base: string, before: string, depth: int, entry: string)

  datatype State = State(out: string, indent: string, codeDepth: int, commentDepth: int, frame: Frame)

  function EnterFrame(st: State): State {
    st.(frame := Frame(st.indent, "", st.codeDepth, st.indent))
  }

  /** Output of a text without newlines. */
  function Put(st: State, text: string): State {
    st.(out := st.out + text, indent := st.indent + IntoWhitespace(text))
  }

  function PutNewline(st: State): State {
    st.(out := st.out + "\n" + st.frame.base, indent := st.frame.base)
  }

  /** A raw input: its lines, each further one on the current indentation. */
  function PutRaw(st: State, text: string): State {
    var lines := Lines(text);
    st.(out := st.out + Join(lines, "\n" + st.indent),
        indent := st.indent + IntoWhitespace(lines[|lines| - 1]))
  }

  function CloseTag(st: State): State {
    var depth := st.codeDepth - 1;
    st.(codeDepth := depth,
        frame := if depth == 0 then st.frame.(base := st.frame.before) else st.frame)
  }

  function OpenTag(st: State): State {
    st.(codeDepth := st.codeDepth + 1,
        frame := if st.codeDepth == 0 then st.frame.(before := st.frame.base, base := "") else st.frame)
  }

  function PutLt(st: State, token: Token): Result<State, Error>
    requires token.Lt?
  {
    var closes := st.commentDepth == 0 && token.closePre;
    var st1 := if closes then CloseTag(st) else st;
    if closes && st1.codeDepth < st1.frame.depth then Err(PreUnopened)
    else
      var st2 := Put(st1, if st1.codeDepth > 0 && !token.isCode then "&lt;" else "<");
      var st3 := if st.commentDepth == 0 && token.openPre then OpenTag(st2) else st2;
      Ok(if token.openComment then st3.(commentDepth := st3.commentDepth + 1) else st3)
  }

  function PutToken(st: State, token: Token): Result<State, Error> {
    match token
    case Emit(text) => Ok(Put(st, text))
    case Newline => Ok(PutNewline(st))
    case Lt(_, _, _, _) => PutLt(st, token)
    case CloseComment => Ok(Put(st.(commentDepth := st.commentDepth - 1), "-"))
    case Fail(error) => Err(error)
    case _ => Ok(st)
  }

  function Layout(doc: Doc, st: State): Result<State, Error>
    decreases doc
  {
    match doc
    case End => Ok(st)
    case Cons(node, tail) =>
      match LayoutNode(node, st)
      case Err(error) => Err(error)
      case Ok(st') => Layout(tail, st')
  }

  function LayoutNode(node: Node, st: State): Result<State, Error>
    decreases node
  {
    match node
    case Leaf(token) => PutToken(st, token)
    case RawFile(_, text) => Ok(PutRaw(st, text))
    case File(_, body) =>
      match Layout(body, EnterFrame(st))
      case Err(error) => Err(error)
      case Ok(st') => if st'.codeDepth > st.codeDepth then Err(PreUnclosed) else Ok(st'.(frame := st.frame))
  }

  // ---- Building a page ----

  datatype Built = Built(output: string, dependencies: set<string>)

  const START := State("", "", 0, 0, Frame("", "", 0, ""))

  function BuildPage(files: Files, page: Page): Result<Built, Error> {
    if page.template == "" then Err(Unsupported)
    else if Key(page.content) !in files then Err(ContentMissing)
    else if Key(page.template) !in files then Err(TemplateMissing)
    else
      var doc := InlineText(files, page, files[Key(page.template)], {});
      match LayoutNode(File(Key(page.template), doc), START)
      case Err(error) => Err(error)
      case Ok(st) =>
        if Key(page.content) !in Reads(doc) then Err(ContentUnused)
        else Ok(Built(st.out + "\n", {Key(page.template)} + Reads(doc)))
  }

  /** Building a page whose files exist, from the layout of its template. */
  lemma BuildPageSteps(files: Files, page: Page)
    requires page.template != "" && Key(page.content) in files && Key(page.template) in files
    ensures var doc := InlineText(files, page, files[Key(page.template)], {});
            BuildPage(files, page) ==
              match LayoutNode(File("", doc), START)
              case Err(error) => Err(error)
              case Ok(st) =>
                if Key(page.content) !in Reads(doc) then Err(ContentUnused)
                else Ok(Built(st.out + "\n", {Key(page.template)} + Reads(doc)))
  {
    hide InlineText, Layout, Reads;
  }
}
