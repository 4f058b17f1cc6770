/**
 What texts expand to, character by character: plain text to itself, line by line on the
 indentation of its call; escapes to the character escaped; tags with the '<' escaped inside pre
 blocks; and a plain template around its content to the two put together.
 */
module PlainText {
  import opened Expansion
  import opened Indentation
  import opened PageBuilds
  import opened Params
  import opened Parsing
  import opened Paths
  import opened Results
  import opened Templates
  import opened Text
  import PrintedCalls

  /** A character that means nothing to the scanner. */
  predicate PlainChar(c: char) {
    c != '\\' && c != '<' && c != '-' && c != '@' && c != '$' && c != '\n'
  }

  /** A text of such characters and newlines. */
  predicate Plain(s: string) {
    forall k | 0 <= k < |s| :: PlainChar(s[k]) || s[k] == '\n'
  }

  /** More output on the same line. */
  function OnLine(st: State, text: string): State {
    st.(out := st.out + text, indent := st.indent + IntoWhitespace(text))
  }

  // ---- Single characters ----

  /** One token of a text that is no input. */
  lemma TokenExpands(files: Files, page: Page, s: string, i: nat, anti: set<string>, st: State, token: Token, next: nat)
    requires i < |s| && s[i] != '\n' && Lex(page, s, i) == Lexeme(token, next) && !token.Input? && !token.Content?
    ensures match PutToken(st, token)
            case Err(error) => LayoutFrom(files, page, s, i, anti, st) == Err(error)
            case Ok(st') => LayoutFrom(files, page, s, i, anti, st) == LayoutFrom(files, page, s, next, anti, st')
  {
    hide Lex, LayoutFrom, PutToken;
    Advance(files, page, s, i, anti, st);
    LayoutOther(files, page, token, anti, st);
  }

  /** A plain character is put out as it is. */
  lemma PlainCharExpands(files: Files, page: Page, s: string, i: nat, anti: set<string>, st: State)
    requires i < |s| && PlainChar(s[i])
    ensures LayoutFrom(files, page, s, i, anti, st) == LayoutFrom(files, page, s, i + 1, anti, OnLine(st, [s[i]]))
  {
    hide LayoutFrom;
    TokenExpands(files, page, s, i, anti, st, Emit([s[i]]), i + 1);
  }

  /** After a backslash an at sign, a hash or a dollar sign is put out, without the backslash. */
  lemma EscapeExpands(files: Files, page: Page, s: string, i: nat, anti: set<string>, st: State)
    requires i + 1 < |s| && s[i] == '\\' && (s[i + 1] == '@' || s[i + 1] == '#' || s[i + 1] == '$')
    ensures LayoutFrom(files, page, s, i, anti, st) == LayoutFrom(files, page, s, i + 2, anti, OnLine(st, [s[i + 1]]))
  {
    hide LayoutFrom;
    TokenExpands(files, page, s, i, anti, st, Emit([s[i + 1]]), i + 2);
  }

  /** Any other backslash is put out itself. */
  lemma BackslashExpands(files: Files, page: Page, s: string, i: nat, anti: set<string>, st: State)
    requires i < |s| && s[i] == '\\' && (i + 1 < |s| ==> s[i + 1] != '@' && s[i + 1] != '#' && s[i + 1] != '$')
    ensures LayoutFrom(files, page, s, i, anti, st) == LayoutFrom(files, page, s, i + 1, anti, OnLine(st, "\\"))
  {
    hide LayoutFrom;
    TokenExpands(files, page, s, i, anti, st, Emit("\\"), i + 1);
  }

  /** A dollar sign that starts no reference is put out. */
  lemma DollarExpands(files: Files, page: Page, s: string, i: nat, anti: set<string>, st: State)
    requires i < |s| && s[i] == '$' && (i + 1 < |s| ==> s[i + 1] != '[' && s[i + 1] != '{' && s[i + 1] != '`')
    ensures LayoutFrom(files, page, s, i, anti, st) == LayoutFrom(files, page, s, i + 1, anti, OnLine(st, "$"))
  {
    hide LayoutFrom;
    TokenExpands(files, page, s, i, anti, st, Emit("$"), i + 1);
  }

  /** A hyphen that ends no comment is put out; one that ends an HTML comment counts it closed. */
  lemma HyphenExpands(files: Files, page: Page, s: string, i: nat, anti: set<string>, st: State)
    requires i < |s| && s[i] == '-'
    ensures LooksAt(s, i, "-->") ==>
              LayoutFrom(files, page, s, i, anti, st) ==
              LayoutFrom(files, page, s, i + 1, anti, OnLine(st, "-").(commentDepth := st.commentDepth - 1))
    ensures LooksAt(s, i, "--#>") ==> LayoutFrom(files, page, s, i, anti, st) == Err(CommentUnopened)
    ensures !LooksAt(s, i, "-->") && !LooksAt(s, i, "--#>") ==>
              LayoutFrom(files, page, s, i, anti, st) == LayoutFrom(files, page, s, i + 1, anti, OnLine(st, "-"))
  {
    hide LayoutFrom;
    if LooksAt(s, i, "-->") {
      LooksAtIndex(s, i, "-->", 2);
      TokenExpands(files, page, s, i, anti, st, CloseComment, i + 1);
      if LooksAt(s, i, "--#>") {
        LooksAtIndex(s, i, "--#>", 2);
        assert false;
      }
    } else if LooksAt(s, i, "--#>") {
      TokenExpands(files, page, s, i, anti, st, Fail(CommentUnopened), |s|);
    } else {
      TokenExpands(files, page, s, i, anti, st, Emit("-"), i + 1);
    }
  }

  /** A newline that does not end the text starts a line on the base indentation. */
  lemma NewlineExpands(files: Files, page: Page, s: string, i: nat, anti: set<string>, st: State)
    requires i + 1 < |s| && s[i] == '\n'
    ensures LayoutFrom(files, page, s, i, anti, st) ==
            LayoutFrom(files, page, s, i + 1, anti, st.(out := st.out + "\n" + st.frame.base, indent := st.frame.base))
  {
    hide LayoutFrom;
    AdvanceNewline(files, page, s, i, anti, st);
  }

  /** Nothing is left of a text at its end, or before a newline that ends it. */
  lemma EndExpands(files: Files, page: Page, s: string, i: nat, anti: set<string>, st: State)
    requires i >= |s| || (i + 1 == |s| && s[i] == '\n')
    ensures LayoutFrom(files, page, s, i, anti, st) == Ok(st)
  {
    if i >= |s| {
      EndOfText(files, page, s, i, anti, st);
    } else {
      AdvanceNewline(files, page, s, i, anti, st);
    }
  }

  // ---- Tags ----

  /** What the '<' of a tag is put out as. */
  function LessThan(codeDepth: int, code: bool): string {
    if codeDepth > 0 && !code then "&lt;" else "<"
  }

  predicate CodeTag(s: string, i: nat) {
    LooksAt(s, i, "<code") || LooksAt(s, i, "</code")
  }

  /** A look-ahead from the next position is a look at this one with the '<'. */
  lemma TagAhead(s: string, i: nat, word: string)
    requires i < |s| && s[i] == '<'
    ensures LooksAt(s, i + 1, word) <==> LooksAt(s, i, "<" + word)
  {
    if LooksAt(s, i + 1, word) {
      assert s[i..i + 1 + |word|] == [s[i]] + s[i + 1..i + 1 + |word|];
    }
    if LooksAt(s, i, "<" + word) {
      assert s[i + 1..i + 1 + |word|] == s[i..i + |"<" + word|][1..] == ("<" + word)[1..] == word;
    }
  }

  lemma TagsAhead(s: string, i: nat)
    requires i < |s| && s[i] == '<'
    ensures LooksAt(s, i + 1, "pre") <==> LooksAt(s, i, "<pre")
    ensures LooksAt(s, i + 1, "/pre") <==> LooksAt(s, i, "</pre")
    ensures LooksAt(s, i + 1, "code") || LooksAt(s, i + 1, "/code") <==> CodeTag(s, i)
    ensures LooksAt(s, i + 1, "!--") <==> LooksAt(s, i, "<!--")
  {
    assert "<" + "pre" == "<pre" && "<" + "/pre" == "</pre" && "<" + "!--" == "<!--";
    assert "<" + "code" == "<code" && "<" + "/code" == "</code";
    TagAhead(s, i, "pre");
    TagAhead(s, i, "/pre");
    TagAhead(s, i, "code");
    TagAhead(s, i, "/code");
    TagAhead(s, i, "!--");
  }

  /** Two words of different second letters do not both stand at a place. */
  lemma TagsDiffer(s: string, i: nat, a: string, b: string)
    requires |a| > 1 && |b| > 1 && a[1] != b[1] && LooksAt(s, i, a)
    ensures !LooksAt(s, i, b)
  {
    LooksAtIndex(s, i, a, 1);
    if LooksAt(s, i, b) {
      LooksAtIndex(s, i, b, 1);
      assert false;
    }
  }

  /**
   The '<' of a tag that is neither a pre tag nor a comment is escaped exactly inside a pre
   block, except before code and /code; nothing else changes.
   */
  lemma TagExpands(files: Files, page: Page, s: string, i: nat, anti: set<string>, st: State)
    requires i < |s| && s[i] == '<' && !LooksAt(s, i, "<#--")
    requires !LooksAt(s, i, "<pre") && !LooksAt(s, i, "</pre") && !LooksAt(s, i, "<!--")
    ensures LayoutFrom(files, page, s, i, anti, st) ==
            LayoutFrom(files, page, s, i + 1, anti, OnLine(st, LessThan(st.codeDepth, CodeTag(s, i))))
  {
    hide LayoutFrom, LooksAt;
    TagsAhead(s, i);
    TokenExpands(files, page, s, i, anti, st, Lt(false, CodeTag(s, i), false, false), i + 1);
  }

  /** A pre tag opens a block, unless it stands in an HTML comment; its '<' is escaped when a block was open. */
  lemma PreExpands(files: Files, page: Page, s: string, i: nat, anti: set<string>, st: State)
    requires LooksAt(s, i, "<pre")
    ensures exists st' ::
              && LayoutFrom(files, page, s, i, anti, st) == LayoutFrom(files, page, s, i + 1, anti, st')
              && st'.out == st.out + LessThan(st.codeDepth, false)
              && st'.indent == st.indent + IntoWhitespace(LessThan(st.codeDepth, false))
              && st'.codeDepth == st.codeDepth + (if st.commentDepth == 0 then 1 else 0)
              && st'.commentDepth == st.commentDepth
  {
    PlaceOf(s, i, "<pre");
    TagsAhead(s, i);
    OtherTags(s, i, "<pre");
    hide LayoutFrom, LooksAt, PutLt;
    var token := Lt(false, false, true, false);
    TokenExpands(files, page, s, i, anti, st, token, i + 1);
    PreIsPut(st);
    hide *;
    var st' := PutLt(st, token).value;
    assert LayoutFrom(files, page, s, i, anti, st) == LayoutFrom(files, page, s, i + 1, anti, st');
  }

  lemma PreIsPut(st: State)
    ensures var r := PutLt(st, Lt(false, false, true, false));
            && r.Ok?
            && r.value.out == st.out + LessThan(st.codeDepth, false)
            && r.value.indent == st.indent + IntoWhitespace(LessThan(st.codeDepth, false))
            && r.value.codeDepth == st.codeDepth + (if st.commentDepth == 0 then 1 else 0)
            && r.value.commentDepth == st.commentDepth
  {
    hide IntoWhitespace;
  }

  lemma PlaceOf(s: string, i: nat, word: string)
    requires word != "" && LooksAt(s, i, word)
    ensures i < |s| && s[i] == word[0]
  {
    LooksAtIndex(s, i, word, 0);
  }

  lemma OtherTags(s: string, i: nat, word: string)
    requires word == "<pre" || word == "</pre" || word == "<!--"
    requires LooksAt(s, i, word)
    ensures !LooksAt(s, i, "<#--") && !LooksAt(s, i, "<code") && (LooksAt(s, i, "<pre") <==> word == "<pre")
    ensures LooksAt(s, i, "</pre") <==> word == "</pre"
    ensures LooksAt(s, i, "<!--") <==> word == "<!--"
    ensures !CodeTag(s, i)
  {
    TagsDiffer(s, i, word, "<#--");
    TagsDiffer(s, i, word, "<code");
    if word == "</pre" {
      LooksAtIndex(s, i, "</pre", 2);
      if LooksAt(s, i, "</code") {
        LooksAtIndex(s, i, "</code", 2);
        assert false;
      }
    } else {
      TagsDiffer(s, i, word, "</code");
      TagsDiffer(s, i, word, "</pre");
    }
    if word != "<pre" {
      TagsDiffer(s, i, word, "<pre");
    }
    if word != "<!--" {
      TagsDiffer(s, i, word, "<!--");
    }
  }

  /**
   A closing pre tag closes a block, unless it stands in an HTML comment, and is an error when
   the running call has none open; its '<' is escaped when a block is still open around it.
   */
  lemma ClosePreExpands(files: Files, page: Page, s: string, i: nat, anti: set<string>, st: State)
    requires LooksAt(s, i, "</pre")
    ensures var left := st.codeDepth - (if st.commentDepth == 0 then 1 else 0);
            if st.commentDepth == 0 && left < st.frame.depth then
              LayoutFrom(files, page, s, i, anti, st) == Err(PreUnopened)
            else
              exists st' ::
                && LayoutFrom(files, page, s, i, anti, st) == LayoutFrom(files, page, s, i + 1, anti, st')
                && st'.out == st.out + LessThan(left, false)
                && st'.indent == st.indent + IntoWhitespace(LessThan(left, false))
                && st'.codeDepth == left && st'.commentDepth == st.commentDepth
  {
    PlaceOf(s, i, "</pre");
    TagsAhead(s, i);
    OtherTags(s, i, "</pre");
    hide LayoutFrom, LooksAt, PutLt;
    var token := Lt(true, false, false, false);
    TokenExpands(files, page, s, i, anti, st, token, i + 1);
    ClosePreIsPut(st);
    hide *;
    if PutLt(st, token).Ok? {
      var st' := PutLt(st, token).value;
      assert LayoutFrom(files, page, s, i, anti, st) == LayoutFrom(files, page, s, i + 1, anti, st');
    }
  }

  lemma ClosePreIsPut(st: State)
    ensures var r, left := PutLt(st, Lt(true, false, false, false)),
              st.codeDepth - (if st.commentDepth == 0 then 1 else 0);
            if st.commentDepth == 0 && left < st.frame.depth then r == Err(PreUnopened)
            else
              && r.Ok?
              && r.value.out == st.out + LessThan(left, false)
              && r.value.indent == st.indent + IntoWhitespace(LessThan(left, false))
              && r.value.codeDepth == left && r.value.commentDepth == st.commentDepth
  {
    hide IntoWhitespace;
  }

  /** The start of an HTML comment counts it open. */
  lemma CommentExpands(files: Files, page: Page, s: string, i: nat, anti: set<string>, st: State)
    requires LooksAt(s, i, "<!--")
    ensures LayoutFrom(files, page, s, i, anti, st) ==
            LayoutFrom(files, page, s, i + 1, anti,
                       OnLine(st, LessThan(st.codeDepth, false)).(commentDepth := st.commentDepth + 1))
  {
    PlaceOf(s, i, "<!--");
    TagsAhead(s, i);
    OtherTags(s, i, "<!--");
    hide LayoutFrom, LooksAt, PutLt;
    TokenExpands(files, page, s, i, anti, st, Lt(false, false, false, true), i + 1);
    CommentIsPut(st);
    hide *;
  }

  lemma CommentIsPut(st: State)
    ensures PutLt(st, Lt(false, false, false, true)) ==
            Ok(OnLine(st, LessThan(st.codeDepth, false)).(commentDepth := st.commentDepth + 1))
  {
    hide IntoWhitespace;
  }

  /**
   A raw comment puts nothing out. Unless an exclamation mark stops it, the blanks and newlines
   after it go too, up to the next character that is neither, if that is no at sign.
   */
  lemma RawCommentExpands(files: Files, page: Page, s: string, i: nat, close: nat, next: nat, anti: set<string>,
                          st: State)
    requires LooksAt(s, i, "<#--") && i + 4 <= close && LooksAt(s, close, "--#>")
    requires forall k | i + 4 <= k < close :: !LooksAt(s, k, "--#>")
    requires close + 4 <= next < |s|
    requires if s[close + 4] == '!' then next == close + 5
             else !IsSpace(s[next]) && s[next] != '@' && forall k | close + 4 <= k < next :: IsSpace(s[k])
    ensures LayoutFrom(files, page, s, i, anti, st) == LayoutFrom(files, page, s, next, anti, st)
  {
    PlaceOf(s, i, "<#--");
    RawCommentIs(s, i, close, next);
    hide LayoutFrom, LooksAt, LexLt;
    TokenExpands(files, page, s, i, anti, st, Nothing, next);
  }

  lemma RawCommentIs(s: string, i: nat, close: nat, next: nat)
    requires LooksAt(s, i, "<#--") && i + 4 <= close && LooksAt(s, close, "--#>") && i < |s|
    requires forall k | i + 4 <= k < close :: !LooksAt(s, k, "--#>")
    requires close + 4 <= next < |s|
    requires if s[close + 4] == '!' then next == close + 5
             else !IsSpace(s[next]) && s[next] != '@' && forall k | close + 4 <= k < next :: IsSpace(s[k])
    ensures LexLt(s, i) == Lexeme(Nothing, next)
  {
    FirstFound(s, "--#>", i + 4, close);
    if s[close + 4] != '!' {
      SpacesSkipped(s, close + 4, next);
    }
    hide LooksAt, Find, SkipToText;
  }

  lemma FirstFound(s: string, pat: string, from: nat, at: nat)
    requires from <= at && LooksAt(s, at, pat) && forall k | from <= k < at :: !LooksAt(s, k, pat)
    ensures Find(s, pat, from) == Some(at)
  {
    hide Find, LooksAt;
    var r := Find(s, pat, from);
    assert r.Some? && !(r.value < at) && !(at < r.value);
  }

  lemma {:induction false} SpacesSkipped(s: string, i: nat, j: nat)
    requires i <= j < |s| && !IsSpace(s[j]) && s[j] != '@' && forall k | i <= k < j :: IsSpace(s[k])
    ensures SkipToText(s, i) == j
    decreases j - i
  {
    if i == j {
      NoCommentHere(s, j);
    } else {
      SpacesSkipped(s, i + 1, j);
    }
  }

  lemma NoCommentHere(s: string, i: nat)
    requires i < |s| && s[i] != '@'
    ensures !LineCommentAt(s, i)
  {
    if LooksAt(s, i, "@#") {
      LooksAtIndex(s, i, "@#", 0);
      assert false;
    } else if LooksAt(s, i, "@//") {
      LooksAtIndex(s, i, "@//", 0);
      assert false;
    }
  }

  // ---- Names ----

  /** A parameter of plain letters is read as it stands. */
  lemma {:induction false} PlainParam(s: string, i: nat, stop: nat, open: char, param: string)
    requires IsOpen(open) && i <= stop < |s| && s[stop] == Closing(open) && s[stop] != ','
    requires forall k | i <= k < stop :: 'a' <= s[k] <= 'z'
    ensures ParamFrom(s, i, open, ',', 1, Unquoted, param, 0) == Some(Scan(param + s[i..stop], 0, stop))
    ensures FindClose(s, i, open, 1, Unquoted) == Some(stop)
    ensures !HasCode(s, i, open, 1, Unquoted)
    decreases stop - i
  {
    hide ParamFrom, FindClose, HasCode;
    if i == stop {
      PlainStop(s, i, open, param);
      assert param + s[i..stop] == param;
    } else {
      assert s[i + 1] != '\n' by {
        assert i + 1 == stop || 'a' <= s[i + 1] <= 'z';
      }
      PlainStep(s, i, open, param);
      PlainParam(s, i + 1, stop, open, param + [s[i]]);
      assert param + s[i..stop] == param + [s[i]] + s[i + 1..stop];
    }
  }

  lemma PlainStop(s: string, i: nat, open: char, param: string)
    requires IsOpen(open) && i < |s| && s[i] == Closing(open)
    ensures ParamFrom(s, i, open, ',', 1, Unquoted, param, 0) == Some(Scan(param, 0, i))
    ensures FindClose(s, i, open, 1, Unquoted) == Some(i) && !HasCode(s, i, open, 1, Unquoted)
  {
  }

  lemma PlainStep(s: string, i: nat, open: char, param: string)
    requires IsOpen(open) && i + 1 < |s| && 'a' <= s[i] <= 'z' && s[i + 1] != '\n'
    ensures ParamFrom(s, i, open, ',', 1, Unquoted, param, 0) ==
              ParamFrom(s, i + 1, open, ',', 1, Unquoted, param + [s[i]], 0)
    ensures FindClose(s, i, open, 1, Unquoted) == FindClose(s, i + 1, open, 1, Unquoted)
    ensures HasCode(s, i, open, 1, Unquoted) == HasCode(s, i + 1, open, 1, Unquoted)
  {
    assert Decode(s, i, Unquoted, ',') == Decoded(s[i], i + 1);
  }

  lemma {:induction false} NameOfLetters(s: string, i: nat)
    requires i <= |s| && forall k | i <= k < |s| :: 'a' <= s[k] <= 'z'
    ensures NameEnd(s, i) == |s|
    decreases |s| - i
  {
    if i >= |s| {
    } else {
      NameOfLetters(s, i + 1);
    }
  }

  lemma WordReference(s: string, i: nat, word: string)
    requires word != "" && (forall k | 0 <= k < |word| :: 'a' <= word[k] <= 'z') && LooksAt(s, i, "$[" + word + "]")
    ensures i < |s| && s[i] == '$' && At(s, i + 1) == '['
    ensures ArgumentsAt(s, i + 1) == Arguments([word], i + |word| + 3)
  {
    var whole, args := "$[" + word + "]", "[" + word + "]";
    PlaceOf(s, i, whole);
    assert s[i + 1..i + |whole|] == s[i..i + |whole|][1..] == args;
    assert s[i + 1] == s[i + 1..i + |whole|][0];
    hide LooksAt;
    WordArguments(s, i + 1, word);
  }

  lemma WordArguments(s: string, i: nat, word: string)
    requires word != "" && (forall k | 0 <= k < |word| :: 'a' <= word[k] <= 'z')
    requires i + |word| + 2 <= |s| && s[i..i + |word| + 2] == "[" + word + "]"
    ensures s[i] == '[' && ArgumentsAt(s, i) == Arguments([word], i + |word| + 2)
  {
    hide FindClose, HasCode, ParamFrom, ReadParamsSpec;
    var args, stop := s[i..i + |word| + 2], i + 1 + |word|;
    assert s[i] == args[0] && s[stop] == args[stop - i];
    forall k | i + 1 <= k < stop
      ensures 'a' <= s[k] <= 'z'
    {
      assert s[k] == args[k - i] == word[k - i - 1];
    }
    PlainParam(s, i + 1, stop, '[', "");
    WordParams(args, word);
  }

  lemma WordParams(args: string, word: string)
    requires word != "" && (forall k | 0 <= k < |word| :: 'a' <= word[k] <= 'z') && args == "[" + word + "]"
    ensures ReadParamsSpec(args, 0, ',') == Ok(Parsed([word], |args|))
  {
    hide FindClose, HasCode, ParamFrom;
    var n := |word|;
    assert forall k | 1 <= k < n + 1 :: args[k] == word[k - 1];
    PlainParam(args, 1, n + 1, '[', "");
    assert "" + args[1..n + 1] == word;
    assert SkipSpace(args, 1) == 1;
    assert [] + [word] == [word];
  }

  /** A reference to the title or the name puts out just that. */
  lemma ReferenceExpands(files: Files, page: Page, s: string, i: nat, anti: set<string>, st: State)
    ensures LooksAt(s, i, "$[title]") ==>
              LayoutFrom(files, page, s, i, anti, st) == LayoutFrom(files, page, s, i + 8, anti, OnLine(st, page.title))
    ensures LooksAt(s, i, "$[name]") ==>
              LayoutFrom(files, page, s, i, anti, st) == LayoutFrom(files, page, s, i + 7, anti, OnLine(st, page.name))
  {
    hide LayoutFrom, ArgumentsAt, LooksAt;
    assert "$[" + "title" + "]" == "$[title]" && "$[" + "name" + "]" == "$[name]";
    if LooksAt(s, i, "$[title]") {
      WordReference(s, i, "title");
      TokenExpands(files, page, s, i, anti, st, Emit(page.title), i + 8);
    }
    if LooksAt(s, i, "$[name]") {
      WordReference(s, i, "name");
      TokenExpands(files, page, s, i, anti, st, Emit(page.name), i + 7);
    }
  }

  /** Brackets after a dollar sign that hold no single name make it an ordinary character. */
  lemma BracketExpands(files: Files, page: Page, s: string, i: nat, anti: set<string>, st: State)
    requires i < |s| && s[i] == '$' && At(s, i + 1) == '['
    requires ArgumentsAt(s, i + 1).Arguments? && |ArgumentsAt(s, i + 1).params| != 1
    ensures LayoutFrom(files, page, s, i, anti, st) == LayoutFrom(files, page, s, i + 1, anti, OnLine(st, "$"))
  {
    hide LayoutFrom, ArgumentsAt;
    TokenExpands(files, page, s, i, anti, st, Emit("$"), i + 1);
  }

  // ---- Lines of plain text ----

  /** What a text puts out: its lines, each after the first on the base indentation. */
  function Typeset(st: State, text: string): State {
    var lines, base := Lines(text), st.frame.base;
    st.(out := st.out + Join(lines, "\n" + base),
        indent := (if |lines| == 1 then st.indent else base) + IntoWhitespace(lines[|lines| - 1]))
  }

  lemma TypesetNothing(st: State)
    ensures Typeset(st, "") == st
  {
    assert Lines("") == [""] && IntoWhitespace("") == "";
    JoinOne("", "\n" + st.frame.base);
    assert st.out + "" == st.out && st.indent + "" == st.indent;
  }

  lemma JoinFirstChar(c: char, lines: seq<string>, sep: string)
    requires lines != []
    ensures Join([[c] + lines[0]] + lines[1..], sep) == [c] + Join(lines, sep)
  {
    var longer := [[c] + lines[0]] + lines[1..];
    if |lines| == 1 {
      JoinOne(longer[0], sep);
      JoinOne(lines[0], sep);
      assert longer == [longer[0]] && lines == [lines[0]];
    } else {
      JoinStep(longer, sep);
      JoinStep(lines, sep);
      assert longer[1..] == lines[1..];
      hide Join;
      var rest := Join(lines[1..], sep);
      assert [c] + lines[0] + sep + rest == [c] + (lines[0] + sep + rest);
    }
  }

  lemma TypesetChar(st: State, c: char, rest: string)
    requires c != '\n'
    ensures Typeset(st, [c] + rest) == Typeset(OnLine(st, [c]), rest)
  {
    hide Lines, Join, IntoWhitespace;
    LinesStep(c, rest);
    var lines := Lines(rest);
    var sep := "\n" + st.frame.base;
    JoinFirstChar(c, lines, sep);
    assert st.out + ([c] + Join(lines, sep)) == st.out + [c] + Join(lines, sep);
    if |lines| == 1 {
      IntoWhitespaceConcat([c], lines[0]);
      assert st.indent + (IntoWhitespace([c]) + IntoWhitespace(lines[0])) ==
             st.indent + IntoWhitespace([c]) + IntoWhitespace(lines[0]);
    }
  }

  lemma TypesetNewline(st: State, rest: string)
    ensures Typeset(st, "\n" + rest) ==
            Typeset(st.(out := st.out + "\n" + st.frame.base, indent := st.frame.base), rest)
  {
    hide Lines, Join, IntoWhitespace;
    assert "\n" + rest == ['\n'] + rest;
    LinesStep('\n', rest);
    var lines := Lines(rest);
    var sep := "\n" + st.frame.base;
    assert ([[]] + lines)[1..] == lines;
    JoinStep([[]] + lines, sep);
    assert st.out + ([] + sep + Join(lines, sep)) == st.out + "\n" + st.frame.base + Join(lines, sep);
  }

  /** A run of plain text inside a text. */
  lemma {:induction false} PlainRun(files: Files, page: Page, s: string, i: nat, j: nat, anti: set<string>, st: State)
    requires i <= j <= |s| && Plain(s[i..j]) && (j == |s| && i < j ==> s[j - 1] != '\n')
    ensures LayoutFrom(files, page, s, i, anti, st) == LayoutFrom(files, page, s, j, anti, Typeset(st, s[i..j]))
    decreases j - i
  {
    hide LayoutFrom, Typeset, OnLine;
    if i == j {
      TypesetNothing(st);
      assert s[i..j] == "";
    } else {
      var rest := s[i + 1..j];
      assert s[i..j] == [s[i]] + rest && s[i..j][0] == s[i];
      assert Plain(rest) by {
        assert forall k | 0 <= k < |rest| :: rest[k] == s[i..j][k + 1];
      }
      if s[i] == '\n' {
        var st' := st.(out := st.out + "\n" + st.frame.base, indent := st.frame.base);
        NewlineExpands(files, page, s, i, anti, st);
        PlainRun(files, page, s, i + 1, j, anti, st');
        assert s[i..j] == "\n" + rest;
        TypesetNewline(st, rest);
      } else {
        PlainCharExpands(files, page, s, i, anti, st);
        PlainRun(files, page, s, i + 1, j, anti, OnLine(st, [s[i]]));
        TypesetChar(st, s[i], rest);
      }
    }
  }

  /** A text without the newline that may end it. */
  function Trimmed(s: string): string {
    if s != "" && s[|s| - 1] == '\n' then s[..|s| - 1] else s
  }

  /**
   Plain text expands to itself. Laying out a text without special characters appends its lines,
   a last empty one apart, each after the first on the base indentation of the call.
   */
  lemma PlainTextExpands(files: Files, page: Page, text: string, anti: set<string>, st: State)
    requires Plain(text)
    ensures Layout(InlineText(files, page, text, anti), st) == Ok(Typeset(st, Trimmed(text)))
  {
    hide Layout, Inline, Tokens, Typeset;
    var n := |Trimmed(text)|;
    assert text[0..n] == Trimmed(text);
    if n == |text| {
      PlainRun(files, page, text, 0, n, anti, st);
      EndExpands(files, page, text, n, anti, Typeset(st, Trimmed(text)));
    } else {
      PlainRun(files, page, text, 0, n, anti, st);
      EndExpands(files, page, text, n, anti, Typeset(st, Trimmed(text)));
    }
  }

  /** A plain file input at some column: its lines hang from that column, and nothing else is put out. */
  lemma PlainFileExpands(files: Files, page: Page, path: string, text: string, anti: set<string>, st: State)
    requires Plain(text) && Aligned(st)
    ensures var column := IntoWhitespace(LastLine(st.out));
            var r := LayoutNode(File(path, InlineText(files, page, text, anti)), st);
            && r.Ok?
            && r.value.out == st.out + Join(Lines(Trimmed(text)), "\n" + column)
            && r.value.codeDepth == st.codeDepth && r.value.commentDepth == st.commentDepth && r.value.frame == st.frame
  {
    hide Layout, InlineText, Lines, Join, IntoWhitespace, LastLine;
    PlainTextExpands(files, page, text, anti, EnterFrame(st));
    FileOf(path, InlineText(files, page, text, anti), st);
  }

  lemma FileOf(path: string, body: Doc, st: State)
    ensures LayoutNode(File(path, body), st) ==
            match Layout(body, EnterFrame(st))
            case Err(error) => Err(error)
            case Ok(st') => if st'.codeDepth > st.codeDepth then Err(PreUnclosed) else Ok(st'.(frame := st.frame))
  {
  }

  /** A file that leaves a pre block open is an error. */
  lemma PreLeftOpen(files: Files, page: Page, path: string, rest: string, anti: set<string>, st: State)
    requires Plain(rest) && st.commentDepth == 0
    ensures LayoutNode(File(path, InlineText(files, page, "<pre" + rest, anti)), st) == Err(PreUnclosed)
  {
    var text, entry := "<pre" + rest, EnterFrame(st);
    PreAhead(rest);
    hide Layout, InlineText, LayoutFrom, Plain, IntoWhitespace, LooksAt, LessThan;
    PreExpands(files, page, text, 0, anti, entry);
    var st' :| LayoutFrom(files, page, text, 0, anti, entry) == LayoutFrom(files, page, text, 1, anti, st')
      && st'.codeDepth == st.codeDepth + 1;
    FromStart(files, page, text, anti, entry);
    PlainRest(files, page, text, 1, "pre" + rest, anti, st');
    FileOf(path, InlineText(files, page, text, anti), st);
  }

  lemma PreAhead(rest: string)
    requires Plain(rest)
    ensures LooksAt("<pre" + rest, 0, "<pre") && ("<pre" + rest)[1..] == "pre" + rest && Plain("pre" + rest)
  {
    assert ("<pre" + rest)[0..4] == "<pre";
  }

  /** Plain text up to the end. */
  lemma PlainRest(files: Files, page: Page, s: string, j: nat, after: string, anti: set<string>, st: State)
    requires j <= |s| && s[j..] == after && Plain(after)
    ensures LayoutFrom(files, page, s, j, anti, st) == Ok(Typeset(st, Trimmed(after)))
  {
    hide LayoutFrom, Typeset;
    var n := j + |Trimmed(after)|;
    assert s[j..n] == Trimmed(after);
    PlainRun(files, page, s, j, n, anti, st);
    EndExpands(files, page, s, n, anti, Typeset(st, Trimmed(after)));
  }

  // ---- Calls that input a file ----

  /** The call at i means an input of a file, and ends before next. */
  predicate MeansInput(page: Page, s: string, i: nat, path: string, raw: bool, next: nat) {
    i < |s| && s[i] == '@' && TokenAt(page, s, i) == Input(path, raw) && Lex(page, s, i).next == next
  }

  lemma {:induction false} NameUpTo(s: string, i: nat, j: nat)
    requires i <= j <= |s| && (forall k | i <= k < j :: 'a' <= s[k] <= 'z')
    requires j < |s| ==> EndsName(s[j])
    ensures NameEnd(s, i) == j
    decreases j - i
  {
    if i == j {
    } else {
      NameUpTo(s, i + 1, j);
    }
  }

  lemma RawBefore(call: string, k: nat, args: string)
    requires k <= |call| && call[k..] == "{raw}" + args
    ensures call[k] == '{' && ArgumentsAt(call, k) == Arguments(["raw"], k + 5)
  {
    hide FindClose, HasCode, ParamFrom;
    Follows(call, k, "{raw}", args);
    assert call[k + 1] == call[k..][1] && call[k + 2] == call[k..][2] && call[k + 3] == call[k..][3];
    assert call[k + 4] == call[k..][4];
    assert call[k + 1..k + 4] == "raw";
    PlainParam(call, k + 1, k + 4, '{', "");
    assert call[k..k + 5] == "{raw}";
    RawOptionParses();
  }

  /** What may follow @content, with or without its option, for the call to end there. */
  predicate EndsContent(c: char, raw: bool) {
    if raw then c != '(' && c != '[' && c != '{' && c != ';'
    else c == ' ' || c == '\n' || c == ')' || c == ']' || c == '}' || c == '"' || c == '\''
  }

  function Option(raw: bool): string {
    if raw then "{raw}" else ""
  }

  /** The call @content means an input of the page's content file. */
  lemma ContentMeansInput(page: Page, s: string, i: nat, raw: bool, rest: string)
    requires SupportedContent(page.content) && i <= |s| && s[i..] == "@content" + Option(raw) + rest
    requires rest != "" ==> EndsContent(rest[0], raw)
    ensures MeansInput(page, s, i, page.content, raw, i + |"@content" + Option(raw)|)
  {
    var k, tail := i + 8, Option(raw) + rest;
    assert s[i..] == "@content" + tail;
    Follows(s, i, "@content", tail);
    CallName(s, i, "content", tail);
    ContentIsInput(page, raw);
    if raw {
      RawBefore(s, k, rest);
      Follows(s, k, "{raw}", rest);
    }
    hide ArgumentsAt, NameEnd, ResolveContent, SupportedContent, MeansInput, LexCall;
    ContentLexed(s, i, raw);
    ContentTokenAt(page, s, i, raw);
  }

  lemma ContentTokenAt(page: Page, s: string, i: nat, raw: bool)
    requires i < |s| && s[i] == '@' && LexCall(s, i).token == Content(raw)
    requires ResolveContent(page, raw) == Input(page.content, raw)
    ensures MeansInput(page, s, i, page.content, raw, LexCall(s, i).next)
  {
    hide LexCall, ResolveContent;
  }

  lemma ContentLexed(s: string, i: nat, raw: bool)
    requires i + 8 <= |s| && NameEnd(s, i + 1) == i + 8 && s[i + 1..i + 8] == "content"
    requires if raw then At(s, i + 8) == '{' && ArgumentsAt(s, i + 8) == Arguments(["raw"], i + 13)
             else i + 8 < |s| ==> EndsContent(s[i + 8], false) && s[i + 8] != '{'
    requires raw && i + 13 < |s| ==> EndsContent(s[i + 13], true)
    ensures LexCall(s, i) == Lexeme(Content(raw), if raw then i + 13 else i + 8)
  {
    hide ArgumentsAt, NameEnd;
  }

  /** A call's name is the letters after its at sign. */
  lemma CallName(s: string, i: nat, name: string, rest: string)
    requires i <= |s| && s[i..] == "@" + name + rest && (forall k | 0 <= k < |name| :: 'a' <= name[k] <= 'z')
    requires rest != "" ==> EndsName(rest[0])
    ensures i < |s| && s[i] == '@' && i + 1 + |name| <= |s|
    ensures NameEnd(s, i + 1) == i + 1 + |name| && s[i + 1..i + 1 + |name|] == name
  {
    hide NameEnd;
    var k := i + 1 + |name|;
    Follows(s, i, "@" + name, rest);
    assert s[i + 1..k] == s[i..][1..1 + |name|] == name;
    forall j | i + 1 <= j < k
      ensures 'a' <= s[j] <= 'z'
    {
      assert s[j] == s[i + 1..k][j - i - 1];
    }
    NameUpTo(s, i + 1, k);
  }

  function Semicolons(n: nat): string {
    seq(n, _ => ';')
  }

  lemma {:induction false} SemicolonsSkipped(s: string, i: nat, j: nat)
    requires i <= j <= |s| && (forall k | i <= k < j :: s[k] == ';') && (j < |s| ==> s[j] != ';')
    ensures SkipSemicolons(s, i) == j
    decreases j - i
  {
    if i < j {
      SemicolonsSkipped(s, i + 1, j);
    } else {
    }
  }

  /** A call of input or inject with a printed path, and semicolons after it. */
  function FileCall(name: string, raw: bool, path: string, n: nat): string {
    "@" + name + Option(raw) + PrintedCalls.PrintArgs('(', [path]) + Semicolons(n)
  }

  lemma FileCallStarts(name: string, raw: bool, path: string, n: nat)
    ensures FileCall(name, raw, path, n) != ""
  {
  }

  /** It means an input of that path, whatever else follows. */
  lemma FileCallMeansInput(page: Page, s: string, i: nat, name: string, raw: bool, path: string, n: nat, rest: string)
    requires (name == "input" || name == "inject") && SupportedContent(path)
    requires i <= |s| && s[i..] == FileCall(name, raw, path, n) + rest && (rest != "" ==> rest[0] != ';')
    ensures MeansInput(page, s, i, path, raw, i + |FileCall(name, raw, path, n)|)
  {
    var args, k := PrintedCalls.PrintArgs('(', [path]), i + 1 + |name|;
    var tail := Semicolons(n) + rest;
    var a, next := k + (if raw then 5 else 0), i + |FileCall(name, raw, path, n)|;
    hide *;
    FileCallAt(s, i, name, raw, path, n, rest);
    SemicolonsAt(s, next - n, n, rest);
    PrintedArgumentAt(s, a, path, tail);
    if raw {
      RawIsBefore(s, k, raw, args + tail);
    }
    FileCallLexed(s, i, name, raw, path, next - n, next);
    LexAt(page, s, i);
  }

  lemma FileCallAt(s: string, i: nat, name: string, raw: bool, path: string, n: nat, rest: string)
    requires (name == "input" || name == "inject") && i <= |s| && s[i..] == FileCall(name, raw, path, n) + rest
    ensures var args, k, tail := PrintedCalls.PrintArgs('(', [path]), i + 1 + |name|, Semicolons(n) + rest;
            var a, next := k + (if raw then 5 else 0), i + |FileCall(name, raw, path, n)|;
            && k < |s| && s[i] == '@' && NameEnd(s, i + 1) == k && s[i + 1..k] == name
            && s[k..] == Option(raw) + (args + tail)
            && a < |s| && s[a] == '(' && s[a..] == args + tail
            && n <= next && next - n <= |s| && s[next - n..] == tail && next - n == |s| - |tail|
  {
    var args, k := PrintedCalls.PrintArgs('(', [path]), i + 1 + |name|;
    var tail := Semicolons(n) + rest;
    var a := k + |Option(raw)|;
    hide *;
    FileCallParts(name, raw, path, n, rest);
    CallName(s, i, name, Option(raw) + (args + tail));
    Follows(s, i, "@" + name, Option(raw) + (args + tail));
    Follows(s, k, Option(raw), args + tail);
    Follows(s, a, args, tail);
  }

  lemma FileCallParts(name: string, raw: bool, path: string, n: nat, rest: string)
    requires name == "input" || name == "inject"
    ensures var args, tail := PrintedCalls.PrintArgs('(', [path]), Semicolons(n) + rest;
            && FileCall(name, raw, path, n) + rest == "@" + name + (Option(raw) + (args + tail))
            && EndsName((Option(raw) + (args + tail))[0])
            && |FileCall(name, raw, path, n)| == 1 + |name| + |Option(raw)| + |args| + n
            && |tail| == n + |rest| && |Option(raw)| == (if raw then 5 else 0)
            && args != "" && args[0] == '(' && "@" != [] && |"@" + name| == 1 + |name|
    ensures forall k | 0 <= k < |name| :: 'a' <= name[k] <= 'z'
  {
  }

  lemma SemicolonsAt(s: string, i: nat, n: nat, rest: string)
    requires i <= |s| && s[i..] == Semicolons(n) + rest && (rest != "" ==> rest[0] != ';')
    ensures SkipSemicolons(s, i) == i + n
  {
    var tail := Semicolons(n) + rest;
    assert |s| == i + n + |rest|;
    forall j | i <= j < i + n
      ensures s[j] == ';'
    {
      assert s[j] == tail[j - i];
    }
    assert i + n < |s| ==> s[i + n] == tail[n] == rest[0];
    SemicolonsSkipped(s, i, i + n);
  }

  lemma LexAt(page: Page, s: string, i: nat)
    requires i < |s| && s[i] == '@' && LexCall(s, i).token.Input?
    ensures Lex(page, s, i) == LexCall(s, i) && TokenAt(page, s, i) == LexCall(s, i).token
    ensures var r := LexCall(s, i); MeansInput(page, s, i, r.token.path, r.token.raw, r.next)
  {
    hide LexCall;
  }

  lemma RawIsBefore(s: string, k: nat, raw: bool, args: string)
    requires k <= |s| && raw && s[k..] == Option(raw) + args
    ensures s[k] == '{' && ArgumentsAt(s, k) == Arguments(["raw"], k + 5) && |Option(raw)| == 5
  {
    hide ArgumentsAt;
    RawBefore(s, k, args);
  }

  lemma FileCallLexed(s: string, i: nat, name: string, raw: bool, path: string, end: nat, next: nat)
    requires (name == "input" || name == "inject") && i + 1 + |name| < |s| && end <= |s|
    requires NameEnd(s, i + 1) == i + 1 + |name| && s[i + 1..i + 1 + |name|] == name
    requires raw ==> s[i + 1 + |name|] == '{' && i + 1 + |name| + 5 < |s|
                     && ArgumentsAt(s, i + 1 + |name|) == Arguments(["raw"], i + 1 + |name| + 5)
    requires var a := i + 1 + |name| + if raw then 5 else 0;
             s[a] == '(' && ArgumentsAt(s, a) == Arguments([path], end) && SkipSemicolons(s, end) == next
    ensures LexCall(s, i) == Lexeme(Input(path, raw), next)
  {
    hide ArgumentsAt, NameEnd, SkipSemicolons;
  }

  /** Such a call inside a text lays out the file. */
  lemma InputExpands(files: Files, page: Page, s: string, i: nat, path: string, next: nat, anti: set<string>, st: State)
    requires MeansInput(page, s, i, path, false, next) && Key(path) in files && Key(path) !in anti
    ensures var body := InlineText(files, page, files[Key(path)], anti + {Key(path)});
            match LayoutNode(File("", body), st)
            case Err(error) => LayoutFrom(files, page, s, i, anti, st) == Err(error)
            case Ok(st') =>
              && LayoutFrom(files, page, s, i, anti, st) == LayoutFrom(files, page, s, next, anti, st')
              && ReadsFrom(files, page, s, i, anti) ==
                  {Key(path)} + Reads(body) + ReadsFrom(files, page, s, next, anti)
  {
    hide LayoutFrom, Lex, TokenAt, LayoutNode, InlineText;
    Advance(files, page, s, i, anti, st);
    InputCases(files, page, path, false, anti, st);
  }

  /** A raw one puts out the file's text as it is, line by line. */
  lemma RawInputExpands(files: Files, page: Page, s: string, i: nat, path: string, next: nat, anti: set<string>,
                        st: State)
    requires MeansInput(page, s, i, path, true, next) && Key(path) in files
    ensures LayoutFrom(files, page, s, i, anti, st) ==
            LayoutFrom(files, page, s, next, anti, PutRaw(st, files[Key(path)]))
    ensures ReadsFrom(files, page, s, i, anti) == {Key(path)} + ReadsFrom(files, page, s, next, anti)
  {
    hide LayoutFrom, Lex, TokenAt, PutRaw;
    Advance(files, page, s, i, anti, st);
    InputCases(files, page, path, true, anti, st);
  }

  /** Plain text inputs nothing. */
  lemma {:induction false} PlainReads(files: Files, page: Page, s: string, i: nat, j: nat, anti: set<string>)
    requires i <= j <= |s| && Plain(s[i..j])
    ensures ReadsFrom(files, page, s, i, anti) == ReadsFrom(files, page, s, j, anti)
    decreases j - i
  {
    if i >= j {
    } else {
      assert Plain(s[i + 1..j]) by {
        var rest := s[i + 1..j];
        assert forall k | 0 <= k < |rest| :: rest[k] == s[i..j][k + 1];
      }
      PlainReads(files, page, s, i + 1, j, anti);
      hide LayoutFrom, ReadsFrom;
      assert PlainChar(s[i]) || s[i] == '\n' by {
        assert s[i] == s[i..j][0];
      }
      if s[i] == '\n' {
        AdvanceNewline(files, page, s, i, anti, START);
        if i + 1 == |s| {
          EndOfText(files, page, s, i + 1, anti, START);
        }
      } else {
        Advance(files, page, s, i, anti, START);
        LayoutOther(files, page, Emit([s[i]]), anti, START);
      }
    }
  }

  lemma {:induction false} LinesJoin(s: string)
    ensures Join(Lines(s), "\n") == s
  {
    if s == "" {
    } else {
      var rest := s[1..];
      assert s == [s[0]] + rest;
      LinesStep(s[0], rest);
      LinesJoin(rest);
      hide Lines, Join;
      if s[0] == '\n' {
        JoinStep([[]] + Lines(rest), "\n");
        assert ([[]] + Lines(rest))[1..] == Lines(rest);
      } else {
        JoinFirstChar(s[0], Lines(rest), "\n");
      }
    }
  }

  lemma LastOfLines(s: string)
    ensures var lines := Lines(s); lines[|lines| - 1] == LastLine(s)
  {
    hide Lines, LineStart, Join;
    var lines := Lines(s);
    LastLineOfJoin(lines, "");
    assert "\n" + "" == "\n" && "" + lines[|lines| - 1] == lines[|lines| - 1];
    LinesJoin(s);
    if |lines| == 1 {
      JoinOne(s, "\n");
      assert '\n' !in s && LineStart(s) == 0 && s[0..] == s;
    }
  }

  /** A text typeset at the start of the output. */
  lemma TypesetAtStart(text: string)
    ensures var st := Typeset(EnterFrame(START), text);
            && st.out == text && st.indent == IntoWhitespace(LastLine(text)) && Aligned(st)
            && st.codeDepth == 0 && st.commentDepth == 0 && st.frame.base == ""
  {
    hide Lines, LastLine, Join, IntoWhitespace;
    LinesJoin(text);
    LastOfLines(text);
    assert "\n" + "" == "\n" && "" + text == text;
    assert "" + IntoWhitespace(LastLine(text)) == IntoWhitespace(LastLine(text));
  }

  lemma FromStart(files: Files, page: Page, s: string, anti: set<string>, st: State)
    ensures LayoutFrom(files, page, s, 0, anti, st) == Layout(InlineText(files, page, s, anti), st)
    ensures ReadsFrom(files, page, s, 0, anti) == Reads(InlineText(files, page, s, anti))
  {
  }

  lemma PlainTextReads(files: Files, page: Page, text: string, anti: set<string>)
    requires Plain(text)
    ensures Reads(InlineText(files, page, text, anti)) == {}
  {
    hide ReadsFrom, LayoutFrom;
    FromStart(files, page, text, anti, START);
    assert text[0..|text|] == text;
    PlainReads(files, page, text, 0, |text|, anti);
    EndOfText(files, page, text, |text|, anti, START);
  }

  /** Plain text up to the end, when lines start at the very left. */
  lemma RestExpands(files: Files, page: Page, s: string, j: nat, after: string, anti: set<string>, st: State)
    requires j <= |s| && s[j..] == after && Plain(after) && st.frame.base == ""
    ensures var r := LayoutFrom(files, page, s, j, anti, st);
            r.Ok? && r.value.out == st.out + Trimmed(after) && r.value.codeDepth == st.codeDepth
    ensures ReadsFrom(files, page, s, j, anti) == {}
  {
    hide LayoutFrom, ReadsFrom, Lines, Join;
    assert s[j..|s|] == after;
    PlainRest(files, page, s, j, after, anti, st);
    PlainReads(files, page, s, j, |s|, anti);
    EndOfText(files, page, s, |s|, anti, st);
    LinesJoin(Trimmed(after));
    assert "\n" + "" == "\n";
  }

  /** What an input puts out: the file without its last newline, or, raw, all of it. */
  function Inputted(text: string, raw: bool): string {
    if raw then text else Trimmed(text)
  }

  /** An input inside a text, of any file if it is raw and otherwise of a plain one: its lines hang from its column. */
  lemma InputPlaced(files: Files, page: Page, s: string, i: nat, path: string, raw: bool, next: nat,
                    anti: set<string>, st: State) returns (st': State)
    requires MeansInput(page, s, i, path, raw, next) && Aligned(st)
    requires Key(path) in files && (!raw ==> Key(path) !in anti && Plain(files[Key(path)]))
    ensures var text, column := Inputted(files[Key(path)], raw), IntoWhitespace(LastLine(st.out));
            st'.out == st.out + Join(Lines(text), "\n" + column)
    ensures st'.codeDepth == st.codeDepth && st'.commentDepth == st.commentDepth && st'.frame == st.frame
    ensures LayoutFrom(files, page, s, i, anti, st) == LayoutFrom(files, page, s, next, anti, st')
    ensures ReadsFrom(files, page, s, i, anti) == {Key(path)} + ReadsFrom(files, page, s, next, anti)
  {
    hide Plain, LastLine, Lines, Join, IntoWhitespace, InlineText, LayoutNode, LayoutFrom, ReadsFrom, MeansInput,
         Trimmed;
    var key := Key(path);
    if raw {
      RawInputExpands(files, page, s, i, path, next, anti, st);
      st' := PutRaw(st, files[key]);
    } else {
      var body := InlineText(files, page, files[key], anti + {key});
      PlainFileExpands(files, page, "", files[key], anti + {key}, st);
      PlainTextReads(files, page, files[key], anti + {key});
      InputExpands(files, page, s, i, path, next, anti, st);
      st' := LayoutNode(File("", body), st).value;
    }
  }

  lemma CallBetween(before: string, call: string, after: string)
    ensures var s, i, j := before + call + after, |before|, |before + call|;
            i <= j <= |s| && s[0..i] == before && s[i..] == call + after && s[j..] == after && j == i + |call|
  {
  }

  /** The layout of plain text around an input: that text, and between it the lines of the file. */
  lemma AroundInput(files: Files, page: Page, before: string, call: string, after: string, path: string, raw: bool,
                    anti: set<string>, st: State)
    requires Plain(before) && Plain(after) && st == EnterFrame(START)
    requires MeansInput(page, before + call + after, |before|, path, raw, |before + call|) && call != ""
    requires Key(path) in files && (!raw ==> Key(path) !in anti && Plain(files[Key(path)]))
    ensures var text, column := Inputted(files[Key(path)], raw), IntoWhitespace(LastLine(before));
            var doc := InlineText(files, page, before + call + after, anti);
            var r := Layout(doc, st);
            && r.Ok? && r.value.codeDepth == 0
            && r.value.out == before + Join(Lines(text), "\n" + column) + Trimmed(after)
            && Reads(doc) == {Key(path)}
  {
    var s, i := before + call + after, |before|;
    var st1 := Typeset(st, before);
    hide *;
    CallBetween(before, call, after);
    TypesetAtStart(before);
    PlainRun(files, page, s, 0, i, anti, st);
    PlainReads(files, page, s, 0, i, anti);
    var st2 := InputPlaced(files, page, s, i, path, raw, |before + call|, anti, st1);
    RestExpands(files, page, s, |before + call|, after, anti, st2);
    FromStart(files, page, s, anti, st);
  }

  /**
   Plain text around a call of input or inject expands to itself, with the lines of the file in
   place of the call and its semicolons, each after the first from the column of the call.
   */
  lemma FileCallExpands(files: Files, page: Page, before: string, name: string, raw: bool, path: string, n: nat,
                        after: string)
    requires (name == "input" || name == "inject") && SupportedContent(path) && Key(path) in files
    requires Plain(before) && Plain(after) && (after != "" ==> after[0] != ';')
    requires !raw ==> Plain(files[Key(path)])
    ensures var text, column := Inputted(files[Key(path)], raw), IntoWhitespace(LastLine(before));
            var r := Layout(InlineText(files, page, before + FileCall(name, raw, path, n) + after, {}),
                EnterFrame(START));
            r.Ok? && r.value.out == before + Join(Lines(text), "\n" + column) + Trimmed(after)
  {
    hide *;
    var call := FileCall(name, raw, path, n);
    CallBetween(before, call, after);
    assert call != "" by {
      FileCallStarts(name, raw, path, n);
    }
    FileCallMeansInput(page, before + call + after, |before|, name, raw, path, n, after);
    AroundInput(files, page, before, call, after, path, raw, {}, EnterFrame(START));
  }

  /**
   A page of plain texts. A plain template around @content builds to its own text with the lines
   of the content in place of the call, each after the first from the column of the call; the
   newlines that end the two files are left out, and one is put at the end. A raw content may
   hold anything and keeps its last newline.
   */
  lemma PlainPageBuilds(files: Files, page: Page, before: string, raw: bool, after: string)
    requires page.template != "" && Key(page.template) in files
    requires files[Key(page.template)] == before + ("@content" + Option(raw)) + after
    requires Plain(before) && Plain(after) && (after != "" ==> EndsContent(after[0], raw))
    requires SupportedContent(page.content) && Key(page.content) in files
    requires !raw ==> Plain(files[Key(page.content)])
    ensures var text, column := Inputted(files[Key(page.content)], raw), IntoWhitespace(LastLine(before));
            BuildPage(files, page) ==
            Ok(Built(before + Join(Lines(text), "\n" + column) + Trimmed(after) + "\n",
                     {Key(page.template), Key(page.content)}))
  {
    hide *;
    var call := "@content" + Option(raw);
    assert call[0] == '@';
    CallBetween(before, call, after);
    ContentMeansInput(page, before + call + after, |before|, raw, after);
    AroundInput(files, page, before, call, after, page.content, raw, {}, EnterFrame(START));
    TemplateLaidOut(files, page);
  }

  /** The build of a page from the layout of its template's text. */
  lemma TemplateLaidOut(files: Files, page: Page)
    requires page.template != "" && Key(page.template) in files && Key(page.content) in files
    ensures var doc := InlineText(files, page, files[Key(page.template)], {});
            var r := Layout(doc, EnterFrame(START));
            r.Ok? && r.value.codeDepth == 0 && Reads(doc) == {Key(page.content)} ==>
              BuildPage(files, page) == Ok(Built(r.value.out + "\n", {Key(page.template), Key(page.content)}))
  {
    hide Layout, InlineText, Reads, BuildPage;
    FileOf("", InlineText(files, page, files[Key(page.template)], {}), START);
    BuildPageSteps(files, page);
    assert {Key(page.template)} + {Key(page.content)} == {Key(page.template), Key(page.content)};
  }
}
