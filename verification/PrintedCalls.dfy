/**
 Calls printed with quote and read back with read_params: the parser prints "@input(...)"
 this way to insert a page's content.
 */
module PrintedCalls {
  import opened Params
  import opened Quoted
  import opened Results
  import opened Text

  function QuoteAll(list: seq<string>): (r: seq<string>)
    ensures |r| == |list|
    ensures forall k | 0 <= k < |list| :: r[k] == Quote(list[k])
  {
    seq(|list|, k requires 0 <= k < |list| => Quote(list[k]))
  }

  /** The printed argument list of a call. */
  function PrintArgs(open: char, list: seq<string>): string {
    [open] + Join(QuoteAll(list), ",") + [Closing(open)]
  }

  /** No character that read_params unescapes, drops or hands to comment handling. */
  predicate PlainChars(s: string) {
    '\\' !in s && '\n' !in s && '@' !in s
  }

  predicate BothQuoteKinds(s: string) {
    '\'' in s && '"' in s
  }

  predicate Printable(s: string) {
    s != "" && PlainChars(s) && !BothQuoteKinds(s) && !AlreadyQuoted(s)
  }

  /** Reading on inside a quoted section up to its closing mark. */
  lemma {:induction false} ReadWithin(s: string, i: nat, stop: nat, open: char, depth: nat, mark: char, param: string,
                                      sections: nat)
    requires IsOpen(open) && depth >= 1 && IsQuote(mark)
    requires i <= stop < |s| && s[stop] == mark
    requires PlainChars(s[i..stop]) && mark !in s[i..stop]
    ensures ParamFrom(s, i, open, ',', depth, Within(mark), param, sections) ==
            ParamFrom(s, stop + 1, open, ',', depth, Unquoted, param + s[i..stop] + [mark], sections)
    decreases stop - i
  {
    if i == stop {
      assert param + s[i..stop] + [mark] == param + [s[i]];
    } else {
      assert s[i..stop] == [s[i]] + s[i + 1..stop];
      assert At(s, i + 1) != '\n' by {
        if i + 1 < stop {
          assert s[i + 1] == s[i..stop][1];
        }
      }
      assert Decode(s, i, Within(mark), ',') == Decoded(s[i], i + 1);
      ReadWithin(s, i + 1, stop, open, depth, mark, param + [s[i]], sections);
      assert param + s[i..stop] + [mark] == param + [s[i]] + s[i + 1..stop] + [mark];
    }
  }

  /** The rest of a quoted section that ends the parameter is read as it stands. */
  lemma {:induction false} WithinEnds(s: string, i: nat, stop: nat, open: char, mark: char, param: string)
    requires IsOpen(open) && IsQuote(mark)
    requires i <= stop && stop + 1 < |s| && s[stop] == mark
    requires forall k | i <= k < stop :: s[k] != mark && s[k] != '\\' && s[k] != '\n'
    requires !IsQuote(s[stop + 1]) && EndsParam(s[stop + 1], open, ',', 1)
    ensures ParamFrom(s, i, open, ',', 1, Within(mark), param, 1) == Some(Scan(param + s[i..stop + 1], 1, stop + 1))
    decreases stop - i
  {
    assert param + s[i..stop + 1] == param + [s[i]] + s[i + 1..stop + 1];
    if i == stop {
      assert param + s[i..stop + 1] == param + [s[i]];
    } else {
      assert Decode(s, i, Within(mark), ',') == Decoded(s[i], i + 1);
      WithinEnds(s, i + 1, stop, open, mark, param + [s[i]]);
    }
  }

  /** A printed parameter followed by a separator or close bracket is read whole. */
  lemma ReadPrinted(s: string, i: nat, open: char, text: string)
    requires IsOpen(open) && Printable(text)
    requires LooksAt(s, i, Quote(text))
    requires i + |Quote(text)| < |s| && EndsParam(s[i + |Quote(text)|], open, ',', 1)
    ensures ParamFrom(s, i, open, ',', 1, Unquoted, "", 0) == Some(Scan(Quote(text), 1, i + |Quote(text)|))
  {
    var quoted, mark := Quote(text), MarkFor(text);
    var stop := i + |text| + 1;
    LooksAtIndex(s, i, quoted, 0);
    LooksAtIndex(s, i, quoted, |text| + 1);
    forall k | i + 1 <= k < stop
      ensures s[k] != mark && s[k] != '\\' && s[k] != '\n'
    {
      LooksAtIndex(s, i, quoted, k - i);
      assert quoted[k - i] == text[k - i - 1];
    }
    WithinEnds(s, i + 1, stop, open, mark, [mark]);
    assert "" + [mark] == [mark];
    assert [mark] + s[i + 1..stop + 1] == s[i..stop + 1];
  }

  /** A printed argument starts like a parameter and is unquoted to the original. */
  lemma PrintedFacts(s: string, i: nat, open: char, text: string)
    requires IsOpen(open) && Printable(text) && LooksAt(s, i, Quote(text))
    ensures text != "" && Quote(text) != "" && !IsSpace(s[i]) && s[i] != Closing(open)
    ensures Finish(Scan(Quote(text), 1, i + |Quote(text)|)) == text
  {
    LooksAtIndex(s, i, Quote(text), 0);
    UnquoteQuote(text);
  }

  /** One printed argument takes the parameter loop to the next one or to the end. */
  lemma PrintedStep(s: string, i: nat, open: char, text: string, before: seq<string>)
    requires IsOpen(open) && Printable(text)
    requires LooksAt(s, i, Quote(text))
    requires i + |Quote(text)| < |s| && EndsParam(s[i + |Quote(text)|], open, ',', 1)
    ensures var stop := i + |Quote(text)|;
            ParamsFrom(s, i, open, ',', before) ==
              if s[stop] == ',' then ParamsFrom(s, stop + 1, open, ',', before + [text])
              else Ok(Parsed(before + [text], stop + 1))
  {
    hide *;
    PrintedFacts(s, i, open, text);
    ReadPrinted(s, i, open, text);
    ParamsStep(s, i, open, before);
  }

  /** The printed arguments one after the other, then a closing text. */
  function Printed(list: seq<string>, close: string): string
    requires list != []
  {
    if |list| == 1 then Quote(list[0]) + close
    else Quote(list[0]) + ("," + Printed(list[1..], close))
  }

  lemma {:induction false} PrintedIsJoin(list: seq<string>, close: string)
    requires list != []
    ensures Printed(list, close) == Join(QuoteAll(list), ",") + close
  {
    hide Join, Quote;
    var quoted := QuoteAll(list);
    if |list| == 1 {
      JoinOne(quoted[0], ",");
      assert quoted == [quoted[0]];
    } else {
      PrintedIsJoin(list[1..], close);
      assert quoted[1..] == QuoteAll(list[1..]);
      JoinStep(quoted, ",");
      var rest := Join(quoted[1..], ",");
      assert quoted[0] + ("," + (rest + close)) == quoted[0] + "," + rest + close;
    }
  }

  lemma {:induction false} ReadPrintedFrom(s: string, i: nat, open: char, list: seq<string>, before: seq<string>,
                                           post: string)
    requires IsOpen(open) && list != [] && i <= |s|
    requires s[i..] == Printed(list, [Closing(open)] + post)
    requires forall k | 0 <= k < |list| :: Printable(list[k])
    ensures var r := ParamsFrom(s, i, open, ',', before);
            r.Ok? && r.value.params == before + list && r.value.next + |post| == |s|
    decreases |list|
  {
    hide ParamFrom, ParamsFrom, Quote, Printable;
    var text, close := list[0], [Closing(open)] + post;
    var next := i + |Quote(text)|;
    if |list| == 1 {
      Follows(s, i, Quote(text), close);
      PrintedStep(s, i, open, text, before);
      assert list == [text];
    } else {
      var rest := Printed(list[1..], close);
      Follows(s, i, Quote(text), "," + rest);
      PrintedStep(s, i, open, text, before);
      Follows(s, next, ",", rest);
      ReadPrintedFrom(s, next + 1, open, list[1..], before + [text], post);
      assert before + [text] + list[1..] == before + list;
    }
  }

  lemma NoArgsParseBack(open: char, post: string)
    requires IsOpen(open)
    ensures ReadParamsSpec(PrintArgs(open, []) + post, 0, ',') == Ok(Parsed([], |PrintArgs(open, [])|))
  {
    hide ParamFrom;
    var s := PrintArgs(open, []) + post;
    assert s[1] == Closing(open);
    assert SkipSpace(s, 1) == 1;
  }

  /** Printed calls parse back: reading a printed argument list gives the list, whatever follows it. */
  lemma PrintedArgsParseBack(open: char, list: seq<string>, post: string)
    requires IsOpen(open)
    requires forall k | 0 <= k < |list| :: Printable(list[k])
    ensures ReadParamsSpec(PrintArgs(open, list) + post, 0, ',') == Ok(Parsed(list, |PrintArgs(open, list)|))
  {
    hide ParamFrom, ParamsFrom, Quote, Printable, Printed;
    var s := PrintArgs(open, list) + post;
    if list == [] {
      NoArgsParseBack(open, post);
    } else {
      PrintedIsJoin(list, [Closing(open)] + post);
      ReadPrintedFrom(s, 1, open, list, [], post);
      assert [] + list == list;
    }
  }

  /** One step of a parameter in a text without escapes and breaks: one more character. */
  lemma RawStep(s: string, i: nat, open: char, depth: nat, q: Quoting, param: string, sections: nat)
    returns (depth': nat, q': Quoting, sections': nat)
    requires IsOpen(open) && depth >= 1 && WellQuoted(q) && '\\' !in s && '\n' !in s
    requires i < |s| && (q.Within? || IsQuote(s[i]) || !EndsParam(s[i], open, ',', depth))
    ensures depth' >= 1 && WellQuoted(q')
    ensures sections' == if q.Unquoted? && IsQuote(s[i]) then sections + 1 else sections
    ensures q.Unquoted? ==> (q'.Unquoted? <==> !IsQuote(s[i]))
    ensures ParamFrom(s, i, open, ',', depth, q, param, sections) ==
            ParamFrom(s, i + 1, open, ',', depth', q', param + [s[i]], sections')
  {
    assert At(s, i + 1) != '\n';
    depth', q', sections' := depth, q, sections;
    if q.Within? {
      q' := if s[i] == q.mark then Unquoted else q;
    } else if IsQuote(s[i]) {
      q', sections' := Within(s[i]), sections + 1;
    } else {
      depth' := DepthAfter(s[i], open, depth);
    }
  }

  /** Without escapes and breaks a raw parameter is a piece of the text, and sections only grow. */
  lemma RawParamIsSlice(s: string, i: nat, open: char, depth: nat, q: Quoting, param: string, sections: nat)
    requires IsOpen(open) && depth >= 1 && WellQuoted(q) && '\\' !in s && '\n' !in s
    ensures var r := ParamFrom(s, i, open, ',', depth, q, param, sections);
            r.Some? ==>
              && i <= r.value.stop <= |s|
              && r.value.param == param + s[i..r.value.stop]
              && r.value.sections >= sections
              && (q.Unquoted? && r.value.sections == sections ==> forall k | i <= k < r.value.stop :: !IsQuote(s[k]))
  {
    hide ParamFrom;
    RawParamText(s, i, open, depth, q, param, sections);
    RawParamMarks(s, i, open, depth, q, param, sections);
  }

  lemma {:induction false} RawParamText(s: string, i: nat, open: char, depth: nat, q: Quoting, param: string,
                                        sections: nat)
    requires IsOpen(open) && depth >= 1 && WellQuoted(q) && '\\' !in s && '\n' !in s
    ensures var r := ParamFrom(s, i, open, ',', depth, q, param, sections);
            r.Some? ==> i <= r.value.stop <= |s| && r.value.param == param + s[i..r.value.stop]
    decreases |s| - i
  {
    if i >= |s| {
    } else {
      if q.Within? || IsQuote(s[i]) || !EndsParam(s[i], open, ',', depth) {
        hide ParamFrom;
        var r := ParamFrom(s, i, open, ',', depth, q, param, sections);
        var depth', q', sections' := RawStep(s, i, open, depth, q, param, sections);
        RawParamText(s, i + 1, open, depth', q', param + [s[i]], sections');
        if r.Some? {
          assert s[i..r.value.stop] == [s[i]] + s[i + 1..r.value.stop];
        }
      } else {
        assert param + s[i..i] == param;
      }
    }
  }

  lemma {:induction false} RawParamMarks(s: string, i: nat, open: char, depth: nat, q: Quoting, param: string,
                                         sections: nat)
    requires IsOpen(open) && depth >= 1 && WellQuoted(q) && '\\' !in s && '\n' !in s
    ensures var r := ParamFrom(s, i, open, ',', depth, q, param, sections);
            r.Some? ==>
              && r.value.stop <= |s| && r.value.sections >= sections
              && (q.Unquoted? && r.value.sections == sections ==> forall k | i <= k < r.value.stop :: !IsQuote(s[k]))
    decreases |s| - i
  {
    if i >= |s| || !(q.Within? || IsQuote(s[i]) || !EndsParam(s[i], open, ',', depth)) {
    } else {
      var depth', q', sections' := RawStep(s, i, open, depth, q, param, sections);
      hide ParamFrom;
      RawParamMarks(s, i + 1, open, depth', q', param + [s[i]], sections');
    }
  }

  /** The first mark from a position on. */
  lemma {:induction false} FirstMark(text: string, from: nat, mark: char, inner: nat) returns (first: nat)
    requires from <= inner < |text| && text[inner] == mark
    ensures from <= first <= inner && text[first] == mark && mark !in text[from..first]
    decreases inner - from
  {
    if text[from] == mark {
      first := from;
    } else {
      first := FirstMark(text, from + 1, mark, inner);
      assert text[from..first] == [text[from]] + text[from + 1..first];
    }
  }

  lemma SectionOpens(text: string, i: nat, open: char)
    requires IsOpen(open) && i < |text| && IsQuote(text[i])
    ensures ParamFrom(text, i, open, ',', 1, Unquoted, "", 0) ==
            ParamFrom(text, i + 1, open, ',', 1, Within(text[i]), "" + [text[i]], 1)
  {
  }

  lemma PlainPiece(text: string, i: nat, j: nat)
    requires i <= j <= |text| && PlainChars(text)
    ensures PlainChars(text[i..j])
  {
  }

  /** A parameter of one section has no quote after that section's first closing mark. */
  lemma OneSectionHasOneClose(text: string, i: nat, open: char, mark: char, inner: nat, scan: Scan)
    requires IsOpen(open) && IsQuote(mark) && PlainChars(text)
    requires i < inner < |text| && text[i] == mark && text[inner] == mark
    requires ParamFrom(text, i, open, ',', 1, Unquoted, "", 0) == Some(scan) && scan.sections == 1
    ensures forall k | inner < k < scan.stop :: !IsQuote(text[k])
  {
    hide ParamFrom;
    var first := FirstMark(text, i + 1, mark, inner);
    var param := SectionRead(text, i, open, mark, first);
    RawParamMarks(text, first + 1, open, 1, Unquoted, param, 1);
  }

  /** From an opening mark on, reading goes on after the closing one. */
  lemma SectionRead(text: string, i: nat, open: char, mark: char, first: nat) returns (param: string)
    requires IsOpen(open) && IsQuote(mark) && PlainChars(text)
    requires i < first < |text| && text[i] == mark && text[first] == mark && mark !in text[i + 1..first]
    ensures ParamFrom(text, i, open, ',', 1, Unquoted, "", 0) ==
            ParamFrom(text, first + 1, open, ',', 1, Unquoted, param, 1)
  {
    hide ParamFrom;
    SectionOpens(text, i, open);
    PlainPiece(text, i + 1, first);
    hide PlainChars;
    ReadWithin(text, i + 1, first, open, 1, mark, "" + [mark], 1);
    param := "" + [mark] + text[i + 1..first] + [mark];
  }

  /** From a position the text reads as s between single quotes, and goes on. */
  ghost predicate WrapsInSingles(text: string, i: nat, s: string) {
    && i + |s| + 2 < |text| && PlainChars(text)
    && text[i] == '\'' && text[i + |s| + 1] == '\''
    && forall k | 0 <= k < |s| :: text[i + 1 + k] == s[k]
  }

  lemma ParamIsNotTheString(text: string, i: nat, open: char, s: string, scan: Scan)
    requires IsOpen(open) && BothQuoteKinds(s) && WrapsInSingles(text, i, s)
    requires ParamFrom(text, i, open, ',', 1, Unquoted, "", 0) == Some(scan)
    requires i <= scan.stop && scan.param == text[i..scan.stop]
    ensures Finish(scan) != s
  {
    hide ParamFrom;
    if scan.param == s {
      forall k | 0 < k < |s|
        ensures s[k] == s[k - 1]
      {
        assert s[k] == text[i..scan.stop][k] == text[i + k] == text[i + 1 + (k - 1)];
      }
      assert s[0] == text[i..scan.stop][0];
      ShiftedStringIsConstant(s, '\'');
    } else if Finish(scan) == s {
      assert |scan.param| == |s| + 2;
      var k :| 0 <= k < |s| && s[k] == '\'';
      OneSectionHasOneClose(text, i, open, '\'', i + 1 + k, scan);
    }
  }

  /** An argument with both kinds of quotes is misread, whatever follows it. */
  lemma BothKindsMisread(text: string, i: nat, open: char, s: string, before: seq<string>, after: seq<string>)
    requires IsOpen(open) && BothQuoteKinds(s) && WrapsInSingles(text, i, s)
    ensures var r := ParamsFrom(text, i, open, ',', before); r.Ok? ==> r.value.params != before + ([s] + after)
  {
    hide ParamFrom, ParamsFrom;
    RawParamIsSlice(text, i, open, 1, Unquoted, "", 0);
    var scan := ParamFrom(text, i, open, ',', 1, Unquoted, "", 0);
    ParamsStep(text, i, open, before);
    if scan.Some? {
      var param := Finish(scan.value);
      assert "" + text[i..scan.value.stop] == text[i..scan.value.stop];
      hide WrapsInSingles, BothQuoteKinds, PlainChars;
      ParamIsNotTheString(text, i, open, s, scan.value);
      if text[scan.value.stop] == ',' && param != "" {
        ParamsGrow(text, scan.value.stop + 1, open, before + [param]);
      }
      var r := ParamsFrom(text, i, open, ',', before);
      if r.Ok? {
        assert r.value.params[..|before| + 1] == before + [param];
        assert (before + [param])[|before|] == param && (before + ([s] + after))[|before|] == s;
      }
    }
  }

  /** An empty argument is an error. */
  lemma EmptyMisread(text: string, i: nat, open: char, before: seq<string>)
    requires IsOpen(open) && PlainChars(text)
    requires i + 2 < |text| && text[i] == '\'' && text[i + 1] == '\'' && EndsParam(text[i + 2], open, ',', 1)
    ensures ParamsFrom(text, i, open, ',', before).Err?
  {
    ReadWithin(text, i + 1, i + 1, open, 1, '\'', "\'", 1);
    assert "" + [text[i]] == "\'";
    assert "\'" + text[i + 1..i + 1] + "\'" == "\'\'";
    assert ParamFrom(text, i + 2, open, ',', 1, Unquoted, "\'\'", 1) == Some(Scan("\'\'", 1, i + 2));
    hide ParamFrom, ParamsFrom;
    ParamsStep(text, i, open, before);
  }

  /** Strings without escapes and breaks that quote puts quotes around. */
  predicate Quotable(list: seq<string>) {
    forall k | 0 <= k < |list| :: PlainChars(list[k]) && !AlreadyQuoted(list[k])
  }

  lemma SingleQuoted(s: string)
    requires PlainChars(s) && !AlreadyQuoted(s) && !Printable(s)
    ensures Quote(s) == "'" + s + "'"
  {
  }

  lemma Wraps(text: string, i: nat, s: string, tail: string)
    requires i <= |text| && text[i..] == "'" + s + "'" + tail && tail != ""
    ensures i + |s| + 2 < |text| && text[i + |s| + 2..] == tail
    ensures text[i] == '\'' && text[i + |s| + 1] == '\'' && forall k | 0 <= k < |s| :: text[i + 1 + k] == s[k]
  {
    var quoted := "'" + s + "'";
    Follows(text, i, quoted, tail);
    forall k | 0 <= k < |quoted|
      ensures text[i + k] == quoted[k]
    {
      LooksAtIndex(text, i, quoted, k);
    }
    hide LooksAt;
    forall k | 0 <= k < |s|
      ensures text[i + 1 + k] == s[k]
    {
      assert text[i + (k + 1)] == quoted[k + 1];
    }
    assert text[i + (|s| + 1)] == quoted[|s| + 1];
  }

  lemma WrapsWhenNotPrintable(text: string, i: nat, s: string, tail: string)
    requires PlainChars(text) && i <= |text| && text[i..] == Quote(s) + tail && tail != ""
    requires PlainChars(s) && !AlreadyQuoted(s) && !Printable(s)
    ensures WrapsInSingles(text, i, s) && text[i + |s| + 2..] == tail && Quote(s) == "'" + s + "'"
  {
    SingleQuoted(s);
    hide Quote, PlainChars, Printable, AlreadyQuoted;
    Wraps(text, i, s, tail);
  }

  /** Printed arguments of which one is not printable do not read back. */
  lemma {:induction false} NotPrintableMisread(text: string, i: nat, open: char, list: seq<string>, before: seq<string>)
    requires IsOpen(open) && list != [] && Quotable(list) && PlainChars(text) && i <= |text|
    requires text[i..] == Printed(list, [Closing(open)])
    requires exists k | 0 <= k < |list| :: !Printable(list[k])
    ensures var r := ParamsFrom(text, i, open, ',', before); r.Ok? ==> r.value.params != before + list
    decreases |list|
  {
    hide ParamFrom, ParamsFrom, Quote, Printable, PlainChars, AlreadyQuoted, EndsParam, IsQuote;
    var first, close := list[0], [Closing(open)];
    var tail := if |list| == 1 then close else "," + Printed(list[1..], close);
    assert list == [first] + list[1..];
    if !Printable(first) {
      WrapsWhenNotPrintable(text, i, first, tail);
      assert text[i + |first| + 2] == tail[0];
      TailEnds(tail, open);
      FirstMisread(text, i, open, first, before, list[1..]);
    } else {
      var rest := Printed(list[1..], close);
      Follows(text, i, Quote(first), "," + rest);
      CommaEnds(open);
      PrintedStep(text, i, open, first, before);
      Follows(text, i + |Quote(first)|, ",", rest);
      var k :| 0 <= k < |list| && !Printable(list[k]);
      assert list[1..][k - 1] == list[k];
      NotPrintableMisread(text, i + |Quote(first)| + 1, open, list[1..], before + [first]);
      assert before + [first] + list[1..] == before + list;
    }
  }

  lemma CommaEnds(open: char)
    requires IsOpen(open)
    ensures EndsParam(',', open, ',', 1)
  {
  }

  lemma TailEnds(tail: string, open: char)
    requires IsOpen(open) && tail != "" && (tail[0] == ',' || tail[0] == Closing(open))
    ensures EndsParam(tail[0], open, ',', 1)
  {
  }

  lemma FirstMisread(text: string, i: nat, open: char, first: string, before: seq<string>, rest: seq<string>)
    requires IsOpen(open) && PlainChars(first) && !AlreadyQuoted(first) && !Printable(first)
    requires WrapsInSingles(text, i, first) && EndsParam(text[i + |first| + 2], open, ',', 1)
    ensures var r := ParamsFrom(text, i, open, ',', before); r.Ok? ==> r.value.params != before + ([first] + rest)
  {
    hide ParamsFrom, ParamFrom;
    if first == "" {
      EmptyMisread(text, i, open, before);
    } else {
      BothKindsMisread(text, i, open, first, before, rest);
    }
  }

  lemma PlainQuote(s: string)
    requires PlainChars(s)
    ensures PlainChars(Quote(s))
  {
  }

  lemma {:induction false} PlainPrinted(list: seq<string>, close: string)
    requires list != [] && PlainChars(close) && forall k | 0 <= k < |list| :: PlainChars(list[k])
    ensures PlainChars(Printed(list, close))
    decreases |list|
  {
    hide Quote;
    PlainQuote(list[0]);
    if |list| == 1 {
    } else {
      PlainPrinted(list[1..], close);
    }
  }

  /**
   Exactly when printed arguments parse back. For strings without escapes and breaks that quote
   does not take for quoted, reading the printed list gives the list if and only if each string
   is non-empty and lacks one kind of quote.
   */
  lemma PrintedArgsParseBackIff(open: char, list: seq<string>)
    requires IsOpen(open) && Quotable(list)
    ensures ReadParamsSpec(PrintArgs(open, list), 0, ',') == Ok(Parsed(list, |PrintArgs(open, list)|)) <==>
              forall k | 0 <= k < |list| :: list[k] != "" && !BothQuoteKinds(list[k])
  {
    hide ParamFrom, ParamsFrom, Quote, AlreadyQuoted, BothQuoteKinds;
    var text := PrintArgs(open, list);
    if forall k | 0 <= k < |list| :: Printable(list[k]) {
      PrintedArgsParseBack(open, list, "");
      assert text + "" == text;
    } else {
      PrintedIsJoin(list, [Closing(open)]);
      PlainPrinted(list, [Closing(open)]);
      assert text == [open] + Printed(list, [Closing(open)]) && text[1..] == Printed(list, [Closing(open)]);
      NotPrintableMisread(text, 1, open, list, []);
      assert [] + list == list;
    }
  }

  /** A separator after a parameter leads to a longer list or to an error. */
  lemma ParamsGrow(s: string, i: nat, open: char, before: seq<string>)
    requires IsOpen(open) && before != []
    ensures var r := ParamsFrom(s, i, open, ',', before);
            r.Ok? ==> |r.value.params| > |before| && r.value.params[..|before|] == before
    decreases |s| - i
  {
    var j := SkipSpace(s, i);
    if j < |s| {
      var scan := ParamFrom(s, j, open, ',', 1, Unquoted, "", 0);
      hide ParamFrom, Finish;
      if scan.Some? {
        var longer := before + [Finish(scan.value)];
        assert longer[..|before|] == before;
        if Finish(scan.value) != "" && s[scan.value.stop] == ',' {
          ParamsGrow(s, scan.value.stop + 1, open, longer);
          var r := ParamsFrom(s, scan.value.stop + 1, open, ',', longer);
          assert r.Ok? ==> r.value.params[..|before|] == r.value.params[..|longer|][..|before|];
        }
      }
    }
  }

  /** A string equal to itself shifted by one, with c moved in, holds nothing but c. */
  lemma {:induction false} ShiftedStringIsConstant(s: string, c: char)
    requires s != "" && s[0] == c
    requires forall k | 0 < k < |s| :: s[k] == s[k - 1]
    ensures forall k | 0 <= k < |s| :: s[k] == c
  {
    if |s| <= 1 {
    } else {
      ShiftedStringIsConstant(s[..|s| - 1], c);
      assert s[|s| - 2] == s[..|s| - 1][|s| - 2];
    }
  }
}
