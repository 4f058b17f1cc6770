/**
 Arguments written with escapes and read back by read_params: what a backslash and the
 character after it stand for, inside quotes and outside them.
 */
module EscapedArgs {
  import opened Params
  import opened Results
  import opened Text

  /** A character as it is written: newline and tab by letters, a mark after a backslash, others as they are. */
  function EscapeChar(c: char, marks: set<char>): (t: string)
    ensures t != "" && t[|t| - 1] != '\n'
  {
    if c == '\n' then "\\n"
    else if c == '\t' then "\\t"
    else if c in marks then ['\\', c]
    else [c]
  }

  function Escape(s: string, marks: set<char>): (t: string)
    ensures '\n' !in t
  {
    if s == "" then "" else EscapeChar(s[0], marks) + Escape(s[1..], marks)
  }

  /** What a backslash goes before everywhere, and outside quotes. */
  const MARKS := {'\\', '\'', '"', '`'}

  predicate Separates(sep: char) {
    sep == ',' || sep == ';'
  }

  /** An argument to be written, between quotes or without them. */
  datatype Arg = Arg(text: string, quoted: bool)

  function Written(a: Arg, sep: char): string {
    if a.quoted then "'" + Escape(a.text, MARKS) + "'" else Escape(a.text, MARKS + {sep})
  }

  /**
   A text that can be written without quotes: it is not empty, starts with no blank and has no
   bracket of the call's kind.
   */
  predicate Bare(text: string, open: char) {
    text != "" && text[0] != ' ' && open !in text && Closing(open) !in text
  }

  // ---- One character ----

  lemma EscapeIsPlace(s: string, i: nat, c: char, marks: set<char>)
    requires LooksAt(s, i, EscapeChar(c, marks))
    ensures i < |s| && s[i] == EscapeChar(c, marks)[0]
    ensures |EscapeChar(c, marks)| == 2 ==> i + 1 < |s| && s[i + 1] == EscapeChar(c, marks)[1]
  {
    LooksAtIndex(s, i, EscapeChar(c, marks), 0);
    if |EscapeChar(c, marks)| == 2 {
      LooksAtIndex(s, i, EscapeChar(c, marks), 1);
    }
  }

  /** Inside quotes. */
  lemma QuotedChar(s: string, i: nat, open: char, sep: char, c: char, param: string)
    requires IsOpen(open) && Separates(sep) && LooksAt(s, i, EscapeChar(c, MARKS))
    requires At(s, i + |EscapeChar(c, MARKS)|) != '\n'
    ensures ParamFrom(s, i, open, sep, 1, Within('\''), param, 1) ==
            ParamFrom(s, i + |EscapeChar(c, MARKS)|, open, sep, 1, Within('\''), param + [c], 1)
  {
    EscapeIsPlace(s, i, c, MARKS);
    var d := Decode(s, i, Within('\''), sep);
    assert SkipBreaks(s, i + |EscapeChar(c, MARKS)|) == i + |EscapeChar(c, MARKS)|;
    assert d == Decoded(c, i + |EscapeChar(c, MARKS)|);
  }

  /** Outside them. */
  lemma BareChar(s: string, i: nat, open: char, sep: char, c: char, param: string)
    requires IsOpen(open) && Separates(sep) && LooksAt(s, i, EscapeChar(c, MARKS + {sep}))
    requires c != open && c != Closing(open)
    requires At(s, i + |EscapeChar(c, MARKS + {sep})|) != '\n'
    ensures ParamFrom(s, i, open, sep, 1, Unquoted, param, 0) ==
            ParamFrom(s, i + |EscapeChar(c, MARKS + {sep})|, open, sep, 1, Unquoted, param + [c], 0)
  {
    EscapeIsPlace(s, i, c, MARKS + {sep});
    var d := Decode(s, i, Unquoted, sep);
    assert SkipBreaks(s, i + |EscapeChar(c, MARKS + {sep})|) == i + |EscapeChar(c, MARKS + {sep})|;
    assert d == Decoded(c, i + |EscapeChar(c, MARKS + {sep})|);
  }

  // ---- One argument ----

  lemma LooksAtSplit(s: string, i: nat, a: string, b: string)
    requires LooksAt(s, i, a + b)
    ensures LooksAt(s, i, a) && LooksAt(s, i + |a|, b)
  {
    var piece := s[i..i + |a + b|];
    assert s[i..i + |a|] == piece[..|a|] == a;
    assert s[i + |a|..i + |a| + |b|] == piece[|a|..] == b;
  }

  lemma EscapeSplits(s: string, i: nat, text: string, marks: set<char>)
    requires text != "" && LooksAt(s, i, Escape(text, marks))
    ensures LooksAt(s, i, EscapeChar(text[0], marks))
    ensures LooksAt(s, i + |EscapeChar(text[0], marks)|, Escape(text[1..], marks))
  {
    hide LooksAt, EscapeChar;
    LooksAtSplit(s, i, EscapeChar(text[0], marks), Escape(text[1..], marks));
  }

  lemma EscapeStarts(text: string, marks: set<char>)
    ensures text != "" ==> Escape(text, marks) != "" && Escape(text, marks)[0] == EscapeChar(text[0], marks)[0]
    ensures text != "" ==> Escape(text, marks)[0] != '\n'
  {
  }

  /** What follows an escaped character is no newline. */
  lemma NextIsNoBreak(s: string, i: nat, text: string, marks: set<char>)
    requires LooksAt(s, i, Escape(text, marks)) && At(s, i + |Escape(text, marks)|) != '\n'
    ensures At(s, i) != '\n'
  {
    EscapeStarts(text, marks);
    if text != "" {
      LooksAtIndex(s, i, Escape(text, marks), 0);
    }
  }

  lemma {:induction false} QuotedText(s: string, i: nat, open: char, sep: char, text: string, param: string)
    requires IsOpen(open) && Separates(sep) && LooksAt(s, i, Escape(text, MARKS))
    requires At(s, i + |Escape(text, MARKS)|) != '\n'
    ensures ParamFrom(s, i, open, sep, 1, Within('\''), param, 1) ==
            ParamFrom(s, i + |Escape(text, MARKS)|, open, sep, 1, Within('\''), param + text, 1)
    decreases |text|
  {
    hide ParamFrom, EscapeChar;
    if text == "" {
      assert param + text == param;
    } else {
      EscapeSplits(s, i, text, MARKS);
      var next := i + |EscapeChar(text[0], MARKS)|;
      NextIsNoBreak(s, next, text[1..], MARKS);
      QuotedChar(s, i, open, sep, text[0], param);
      QuotedText(s, next, open, sep, text[1..], param + [text[0]]);
      assert param + [text[0]] + text[1..] == param + text;
    }
  }

  lemma {:induction false} BareText(s: string, i: nat, open: char, sep: char, text: string, param: string)
    requires IsOpen(open) && Separates(sep) && LooksAt(s, i, Escape(text, MARKS + {sep}))
    requires open !in text && Closing(open) !in text
    requires At(s, i + |Escape(text, MARKS + {sep})|) != '\n'
    ensures ParamFrom(s, i, open, sep, 1, Unquoted, param, 0) ==
            ParamFrom(s, i + |Escape(text, MARKS + {sep})|, open, sep, 1, Unquoted, param + text, 0)
    decreases |text|
  {
    hide ParamFrom, EscapeChar;
    var marks := MARKS + {sep};
    if text == "" {
      assert param + text == param;
    } else {
      EscapeSplits(s, i, text, marks);
      var next := i + |EscapeChar(text[0], marks)|;
      NextIsNoBreak(s, next, text[1..], marks);
      BareChar(s, i, open, sep, text[0], param);
      BareText(s, next, open, sep, text[1..], param + [text[0]]);
      assert param + [text[0]] + text[1..] == param + text;
    }
  }

  /** An argument that can be written so as to be read. */
  predicate Readable(a: Arg, open: char, sep: char) {
    if a.quoted then a.text != "" || sep == ';' else Bare(a.text, open)
  }

  lemma WrittenStarts(a: Arg, open: char, sep: char)
    requires IsOpen(open) && Separates(sep) && (a.quoted || Bare(a.text, open))
    ensures Written(a, sep) != "" && !IsSpace(Written(a, sep)[0]) && Written(a, sep)[0] != Closing(open)
  {
    EscapeStarts(a.text, MARKS + {sep});
  }

  /** A written argument is read as its text, whatever follows it. */
  lemma WrittenReads(s: string, i: nat, open: char, sep: char, a: Arg)
    requires IsOpen(open) && Separates(sep) && (a.quoted || Bare(a.text, open))
    requires LooksAt(s, i, Written(a, sep))
    requires var stop := i + |Written(a, sep)|; stop < |s| && (s[stop] == sep || s[stop] == Closing(open))
    ensures var r := ParamFrom(s, i, open, sep, 1, Unquoted, "", 0);
            r.Some? && r.value.stop == i + |Written(a, sep)| && Finish(r.value) == a.text
  {
    hide *;
    StopEnds(s[i + |Written(a, sep)|], open, sep);
    WrittenIs(a, sep);
    if a.quoted {
      QuotedReads(s, i, open, sep, a.text);
    } else {
      BareReads(s, i, open, sep, a.text);
    }
  }

  lemma WrittenIs(a: Arg, sep: char)
    ensures Written(a, sep) == if a.quoted then "'" + Escape(a.text, MARKS) + "'" else Escape(a.text, MARKS + {sep})
    ensures |"'" + Escape(a.text, MARKS) + "'"| == |Escape(a.text, MARKS)| + 2
  {
  }

  lemma BareReads(s: string, i: nat, open: char, sep: char, text: string)
    requires IsOpen(open) && Separates(sep) && Bare(text, open) && LooksAt(s, i, Escape(text, MARKS + {sep}))
    requires var stop := i + |Escape(text, MARKS + {sep})|;
             stop < |s| && EndsParam(s[stop], open, sep, 1) && !IsQuote(s[stop]) && s[stop] != '\n'
    ensures ParamFrom(s, i, open, sep, 1, Unquoted, "", 0) == Some(Scan(text, 0, i + |Escape(text, MARKS + {sep})|))
    ensures Finish(Scan(text, 0, i + |Escape(text, MARKS + {sep})|)) == text
  {
    var stop := i + |Escape(text, MARKS + {sep})|;
    assert "" + text == text;
    assert ParamFrom(s, stop, open, sep, 1, Unquoted, text, 0) == Some(Scan(text, 0, stop));
    hide Escape, LooksAt, EndsParam, ParamFrom;
    BareText(s, i, open, sep, text, "");
  }

  lemma StopEnds(c: char, open: char, sep: char)
    requires IsOpen(open) && Separates(sep) && (c == sep || c == Closing(open))
    ensures EndsParam(c, open, sep, 1) && !IsQuote(c) && c != '\n'
  {
  }


  lemma QuotedReads(s: string, i: nat, open: char, sep: char, text: string)
    requires IsOpen(open) && Separates(sep) && LooksAt(s, i, "'" + Escape(text, MARKS) + "'")
    requires var stop := i + |Escape(text, MARKS)| + 2;
             stop < |s| && EndsParam(s[stop], open, sep, 1) && !IsQuote(s[stop])
    ensures ParamFrom(s, i, open, sep, 1, Unquoted, "", 0) ==
            Some(Scan("'" + text + "'", 1, i + |Escape(text, MARKS)| + 2))
    ensures Finish(Scan("'" + text + "'", 1, i + |Escape(text, MARKS)| + 2)) == text
  {
    var inner := Escape(text, MARKS);
    hide *;
    QuotedIs(s, i, inner);
    QuoteEnds(s, i, i + 1 + |inner|, open, sep, text);
    QuotedText(s, i + 1, open, sep, text, "'");
    SectionFinish(text, i + |inner| + 2);
  }

  lemma QuotedIs(s: string, i: nat, inner: string)
    requires LooksAt(s, i, "'" + inner + "'")
    ensures i + 1 + |inner| < |s| && s[i] == '\'' && s[i + 1 + |inner|] == '\'' && LooksAt(s, i + 1, inner)
    ensures At(s, i + 1 + |inner|) == '\''
  {
    var whole := "'" + inner + "'";
    LooksAtIndex(s, i, whole, 0);
    LooksAtIndex(s, i, whole, |inner| + 1);
    assert s[i + 0] == whole[0] == '\'' && s[i + (|inner| + 1)] == whole[|inner| + 1] == '\'';
    var at := s[i + 1..i + 1 + |inner|];
    forall k | 0 <= k < |inner|
      ensures at[k] == inner[k]
    {
      LooksAtIndex(s, i, whole, k + 1);
    }
    assert at == inner;
  }

  lemma SectionFinish(text: string, stop: nat)
    ensures Finish(Scan("'" + text + "'", 1, stop)) == text
  {
    assert ("'" + text + "'")[1..|text| + 1] == text;
  }

  lemma QuoteEnds(s: string, i: nat, close: nat, open: char, sep: char, text: string)
    requires IsOpen(open) && i < close && close + 1 < |s| && s[i] == '\'' && s[close] == '\''
    requires EndsParam(s[close + 1], open, sep, 1) && !IsQuote(s[close + 1])
    ensures ParamFrom(s, i, open, sep, 1, Unquoted, "", 0) == ParamFrom(s, i + 1, open, sep, 1, Within('\''), "'", 1)
    ensures ParamFrom(s, close, open, sep, 1, Within('\''), "'" + text, 1) ==
            Some(Scan("'" + text + "'", 1, close + 1))
  {
    assert "" + ['\''] == "'";
    assert "'" + text + ['\''] == "'" + text + "'";
  }

  // ---- Lists of arguments ----

  /** The written arguments one after the other, then a closing text. */
  function AllWritten(args: seq<Arg>, sep: char, close: string): string
    requires args != []
  {
    if |args| == 1 then Written(args[0], sep) + close
    else Written(args[0], sep) + ([sep] + AllWritten(args[1..], sep, close))
  }

  function Pieces(args: seq<Arg>, sep: char): (r: seq<string>)
    ensures |r| == |args| && forall k | 0 <= k < |args| :: r[k] == Written(args[k], sep)
  {
    seq(|args|, k requires 0 <= k < |args| => Written(args[k], sep))
  }

  function TextsOf(args: seq<Arg>): (r: seq<string>)
    ensures |r| == |args| && forall k | 0 <= k < |args| :: r[k] == args[k].text
  {
    seq(|args|, k requires 0 <= k < |args| => args[k].text)
  }

  /** A call's arguments as they are written: in brackets, with separators. */
  function WriteArgs(open: char, sep: char, args: seq<Arg>): string {
    [open] + Join(Pieces(args, sep), [sep]) + [Closing(open)]
  }

  lemma {:induction false} AllWrittenIsJoin(args: seq<Arg>, sep: char, close: string)
    requires args != []
    ensures AllWritten(args, sep, close) == Join(Pieces(args, sep), [sep]) + close
  {
    hide Join, Written;
    var pieces := Pieces(args, sep);
    if |args| == 1 {
      JoinOne(pieces[0], [sep]);
      assert pieces == [pieces[0]];
    } else {
      AllWrittenIsJoin(args[1..], sep, close);
      assert pieces[1..] == Pieces(args[1..], sep);
      JoinStep(pieces, [sep]);
      var rest := Join(pieces[1..], [sep]);
      assert pieces[0] + ([sep] + (rest + close)) == pieces[0] + [sep] + rest + close;
    }
  }

  /** The parameter loop at a parameter, for any separator. */
  lemma ParamsAt(s: string, i: nat, open: char, sep: char, before: seq<string>)
    requires IsOpen(open) && i < |s| && !IsSpace(s[i]) && s[i] != Closing(open)
    ensures var r := ParamFrom(s, i, open, sep, 1, Unquoted, "", 0);
            ParamsFrom(s, i, open, sep, before) ==
              if r.None? then Err(NoClose)
              else if sep != ';' && Finish(r.value) == "" then Err(MissingParam)
              else if s[r.value.stop] == sep then ParamsFrom(s, r.value.stop + 1, open, sep, before + [Finish(r.value)])
              else Ok(Parsed(before + [Finish(r.value)], r.value.stop + 1))
  {
    hide ParamFrom, Finish;
  }

  /** One written argument takes the parameter loop on, or is missing when it is empty. */
  lemma WrittenStep(s: string, i: nat, open: char, sep: char, a: Arg, before: seq<string>)
    requires IsOpen(open) && Separates(sep) && (a.quoted || Bare(a.text, open)) && LooksAt(s, i, Written(a, sep))
    requires var stop := i + |Written(a, sep)|; stop < |s| && (s[stop] == sep || s[stop] == Closing(open))
    ensures var stop := i + |Written(a, sep)|;
            ParamsFrom(s, i, open, sep, before) ==
              if sep != ';' && a.text == "" then Err(MissingParam)
              else if s[stop] == sep then ParamsFrom(s, stop + 1, open, sep, before + [a.text])
              else Ok(Parsed(before + [a.text], stop + 1))
  {
    hide Written, ParamFrom, ParamsFrom, Finish, IsSpace;
    WrittenStarts(a, open, sep);
    LooksAtIndex(s, i, Written(a, sep), 0);
    WrittenReads(s, i, open, sep, a);
    ParamsAt(s, i, open, sep, before);
  }

  /** Arguments that can be written: those without quotes are bare, and none holds the sign comments start with. */
  predicate Writable(args: seq<Arg>, open: char) {
    forall k | 0 <= k < |args| :: (args[k].quoted || Bare(args[k].text, open)) && '@' !in args[k].text
  }

  predicate NoneMissing(args: seq<Arg>, sep: char) {
    sep == ';' || forall k | 0 <= k < |args| :: args[k].text != ""
  }

  lemma MissingCons(args: seq<Arg>, sep: char)
    requires args != []
    ensures NoneMissing(args, sep) <==> (sep == ';' || args[0].text != "") && NoneMissing(args[1..], sep)
    ensures TextsOf(args) == [args[0].text] + TextsOf(args[1..])
  {
    assert args == [args[0]] + args[1..];
  }

  /** The first of several arguments, by what follows it. */
  lemma WrittenFirst(s: string, i: nat, open: char, sep: char, a: Arg, tail: string, before: seq<string>)
    requires IsOpen(open) && Separates(sep) && (a.quoted || Bare(a.text, open)) && i <= |s|
    requires s[i..] == Written(a, sep) + tail && tail != "" && (tail[0] == sep || tail[0] == Closing(open))
    ensures var stop := i + |Written(a, sep)|;
            && stop < |s| == stop + |tail| && s[stop + 1..] == tail[1..]
            && ParamsFrom(s, i, open, sep, before) ==
               if sep != ';' && a.text == "" then Err(MissingParam)
               else if tail[0] == sep then ParamsFrom(s, stop + 1, open, sep, before + [a.text])
               else Ok(Parsed(before + [a.text], stop + 1))
  {
    hide Written, ParamsFrom, Bare, LooksAt;
    Follows(s, i, Written(a, sep), tail);
    WrittenStep(s, i, open, sep, a, before);
    var stop := i + |Written(a, sep)|;
    assert s[stop..][1..] == s[stop + 1..];
  }

  lemma {:induction false} ReadWritten(s: string, i: nat, open: char, sep: char, args: seq<Arg>, before: seq<string>)
    requires IsOpen(open) && Separates(sep) && args != [] && Writable(args, open) && i <= |s|
    requires s[i..] == AllWritten(args, sep, [Closing(open)])
    ensures ParamsFrom(s, i, open, sep, before) ==
            if NoneMissing(args, sep) then Ok(Parsed(before + TextsOf(args), |s|)) else Err(MissingParam)
    decreases |args|
  {
    hide Written, ParamsFrom, NoneMissing, Bare, TextsOf;
    var a := args[0];
    assert a.quoted || Bare(a.text, open);
    MissingCons(args, sep);
    if |args| == 1 {
      WrittenFirst(s, i, open, sep, a, [Closing(open)], before);
      NothingMissing(sep);
      assert args[1..] == [] && [a.text] + [] == [a.text];
    } else {
      var rest := AllWritten(args[1..], sep, [Closing(open)]);
      assert ([sep] + rest)[1..] == rest;
      WrittenFirst(s, i, open, sep, a, [sep] + rest, before);
      ReadWritten(s, i + |Written(a, sep)| + 1, open, sep, args[1..], before + [a.text]);
      assert before + [a.text] + TextsOf(args[1..]) == before + ([a.text] + TextsOf(args[1..]));
    }
  }

  lemma NothingMissing(sep: char)
    ensures NoneMissing([], sep) && TextsOf([]) == []
  {
  }

  /**
   Escaped arguments read back. Whatever the texts, written between quotes with newlines, tabs,
   backslashes and quotes escaped, or without quotes and the separator escaped too, read_params
   gives just those texts, and stops past the bracket; only an empty text between commas is
   reported as missing.
   */
  lemma EscapedArgsReadBackIff(open: char, sep: char, args: seq<Arg>)
    requires IsOpen(open) && Separates(sep) && Writable(args, open)
    ensures ReadParamsSpec(WriteArgs(open, sep, args), 0, sep) ==
            if NoneMissing(args, sep) then Ok(Parsed(TextsOf(args), |WriteArgs(open, sep, args)|))
                else Err(MissingParam)
  {
    hide ParamFrom, Written, Join;
    var s := WriteArgs(open, sep, args);
    if args == [] {
      JoinNothing([sep]);
      assert s == [open, Closing(open)] && SkipSpace(s, 1) == 1;
      assert TextsOf(args) == [];
    } else {
      AllWrittenIsJoin(args, sep, [Closing(open)]);
      assert s[1..] == AllWritten(args, sep, [Closing(open)]);
      hide ParamsFrom;
      ReadWritten(s, 1, open, sep, args, []);
      assert [] + TextsOf(args) == TextsOf(args);
    }
  }

  lemma JoinNothing(sep: string)
    ensures Join([], sep) == ""
  {
  }

  /** A backslash before any other character is read as it stands, and so is the character. */
  lemma OtherEscapesStay(c: char)
    requires 'a' <= c <= 'z' && c != 'n' && c != 't'
    ensures ReadParamsSpec(['(', '\\', c, ')'], 0, ',') == Ok(Parsed([['\\', c]], 4))
  {
    var s := ['(', '\\', c, ')'];
    assert Decode(s, 2, Unquoted, ',') == Decoded(c, 3);
    assert Decode(s, 1, Unquoted, ',') == Decoded('\\', 2);
    assert "" + ['\\'] + [c] == ['\\', c];
    assert ParamFrom(s, 3, '(', ',', 1, Unquoted, ['\\', c], 0) == Some(Scan(['\\', c], 0, 3));
    assert ParamFrom(s, 2, '(', ',', 1, Unquoted, "" + ['\\'], 0) == Some(Scan(['\\', c], 0, 3));
    assert SkipSpace(s, 1) == 1;
    assert [] + [['\\', c]] == [['\\', c]];
  }

  /**
   Brackets of the call's kind may stand in an argument without quotes when they match, and
   blanks before it do not count.
   */
  lemma NestedBracketsStay(c: char)
    requires 'a' <= c <= 'z'
    ensures ReadParamsSpec(['(', ' ', c, '(', ',', ')', ',', '\t', c, ')'], 0, ',') ==
            Ok(Parsed([[c, '(', ',', ')'], [c]], 10))
  {
    var s := ['(', ' ', c, '(', ',', ')', ',', '\t', c, ')'];
    var nested := [c, '(', ',', ')'];
    assert SkipSpace(s, 1) == 2 && SkipSpace(s, 7) == 8;
    assert Decode(s, 8, Unquoted, ',') == Decoded(c, 9);
    assert "" + [c] == [c];
    assert ParamFrom(s, 8, '(', ',', 1, Unquoted, "", 0) == Some(Scan([c], 0, 9));
    assert ParamsFrom(s, 7, '(', ',', [nested]) == Ok(Parsed([nested] + [[c]], 10));
    assert Decode(s, 5, Unquoted, ',') == Decoded(')', 6);
    assert Decode(s, 4, Unquoted, ',') == Decoded(',', 5);
    assert Decode(s, 3, Unquoted, ',') == Decoded('(', 4);
    assert Decode(s, 2, Unquoted, ',') == Decoded(c, 3);
    assert ParamFrom(s, 6, '(', ',', 1, Unquoted, nested, 0) == Some(Scan(nested, 0, 6));
    assert [c, '(', ','] + [')'] == nested;
    assert ParamFrom(s, 5, '(', ',', 2, Unquoted, [c, '(', ','], 0) == Some(Scan(nested, 0, 6));
    assert [c, '('] + [','] == [c, '(', ','];
    assert ParamFrom(s, 4, '(', ',', 2, Unquoted, [c, '('], 0) == Some(Scan(nested, 0, 6));
    assert [c] + ['('] == [c, '('];
    assert ParamFrom(s, 3, '(', ',', 1, Unquoted, [c], 0) == Some(Scan(nested, 0, 6));
    assert ParamFrom(s, 2, '(', ',', 1, Unquoted, "", 0) == Some(Scan(nested, 0, 6));
    hide ParamFrom;
    assert Finish(Scan(nested, 0, 6)) == nested && [] + [nested] == [nested];
    assert ParamsFrom(s, 1, '(', ',', []) == ParamsFrom(s, 7, '(', ',', [nested]);
    assert [nested] + [[c]] == [nested, [c]];
  }

  lemma {:induction false} BlanksPassed(s: string, i: nat, j: nat)
    requires i <= j < |s| && !IsBlank(s[j]) && forall k | i <= k < j :: IsBlank(s[k])
    ensures SkipBlanks(s, i) == j
    decreases j - i
  {
    if i == j {
    } else {
      BlanksPassed(s, i + 1, j);
    }
  }

  lemma BreakDecoded(s: string, c: char, blanks: string, d: char)
    requires 'a' <= c <= 'z' && 'a' <= d <= 'z' && AllBlank(blanks) && s == ['(', c, '\n'] + blanks + [d, ')']
    ensures Decode(s, 1, Unquoted, ',') == Decoded(c, 3 + |blanks|)
    ensures Decode(s, 3 + |blanks|, Unquoted, ',') == Decoded(d, 4 + |blanks|)
  {
    var n := |blanks|;
    assert s[1] == c && s[2] == '\n' && s[3 + n] == d && s[4 + n] == ')';
    assert forall k | 3 <= k < 3 + n :: s[k] == blanks[k - 3];
    BlanksPassed(s, 3, 3 + n);
    assert SkipBreaks(s, 2) == 3 + n;
  }

  /** A line break inside an argument is left out with the blanks after it. */
  lemma BreakIsLeftOut(c: char, blanks: string, d: char)
    requires 'a' <= c <= 'z' && 'a' <= d <= 'z' && AllBlank(blanks)
    ensures var s := ['(', c, '\n'] + blanks + [d, ')'];
            ReadParamsSpec(s, 0, ',') == Ok(Parsed([[c, d]], |s|))
  {
    var s := ['(', c, '\n'] + blanks + [d, ')'];
    var n := |blanks|;
    assert s[0] == '(' && s[1] == c && s[2] == '\n' && s[3 + n] == d && s[4 + n] == ')';
    BreakDecoded(s, c, blanks, d);
    hide SkipBreaks, SkipBlanks, Decode;
    assert "" + [c] + [d] == [c, d];
    assert ParamFrom(s, 4 + n, '(', ',', 1, Unquoted, [c, d], 0) == Some(Scan([c, d], 0, 4 + n));
    assert ParamFrom(s, 3 + n, '(', ',', 1, Unquoted, "" + [c], 0) == Some(Scan([c, d], 0, 4 + n));
    assert ParamFrom(s, 1, '(', ',', 1, Unquoted, "", 0) == Some(Scan([c, d], 0, 4 + n));
    assert SkipSpace(s, 1) == 1 && [] + [[c, d]] == [[c, d]];
  }
}
