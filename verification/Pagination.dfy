/**
 Pagination: cutting the items of a page into slices of noItemsPerPage, splitting the text
 around the marker the paginate call left, and removing the pages a shrinking list leaves
 behind. What parse_replace makes of an item is a parameter, as a function of the item and of
 the page file the parser stands on.
 */
module Pagination {
  import opened Results
  import opened Text

  const MARKER := "__paginate_here__"

  /** std::ceil of the quotient of two sizes, as computed on reals. */
  function CeilQuotient(items: nat, perPage: nat): (pages: int)
    requires perPage > 0
  {
    -((-(items as real) / (perPage as real)).Floor)
  }

  /** The ceiling quotient is the least number of pages that holds the items. */
  lemma CeilQuotientIsLeast(items: nat, perPage: nat)
    requires perPage > 0
    ensures var pages := CeilQuotient(items, perPage);
            0 <= pages && items <= pages * perPage && (pages > 0 ==> (pages - 1) * perPage < items)
  {
    var pages := CeilQuotient(items, perPage);
    var q := -(items as real) / (perPage as real);
    assert pages as real - 1.0 < -q <= pages as real;
    Scaled(-q, pages as real, perPage as real, items as real) by { Quotient(items as real, perPage as real); }
    ProductAsReal(pages, perPage);
    ProductAsReal(pages - 1, perPage);
    hide CeilQuotient;
    assert 0 <= pages;
  }

  lemma Quotient(n: real, k: real)
    requires n >= 0.0 && k > 0.0
    ensures -(-n / k) * k == n && -(-n / k) >= 0.0
  {
  }

  lemma Scaled(q: real, up: real, k: real, n: real)
    requires up - 1.0 < q <= up && k > 0.0 && q * k == n && q >= 0.0
    ensures (up - 1.0) * k < n <= up * k && up >= 0.0
  {
    Positive(up - q, k);
    Positive(q - (up - 1.0), k);
    assert (up - q) * k == up * k - n;
    assert (q - (up - 1.0)) * k == n - (up - 1.0) * k;
  }

  lemma Positive(a: real, k: real)
    requires a >= 0.0 && k > 0.0
    ensures a * k >= 0.0 && (a > 0.0 ==> a * k > 0.0)
  {
  }

  lemma {:induction false} ProductAsReal(a: int, b: nat)
    ensures (a * b) as real == a as real * b as real
  {
    if b == 0 {
    } else {
      ProductAsReal(a, b - 1);
      assert a * b == a * (b - 1) + a;
      assert a as real * b as real == a as real * (b - 1) as real + a as real;
    }
  }

  /** The items of page p. */
  function Slice(items: seq<string>, perPage: nat, p: nat): seq<string> {
    if p * perPage > |items| then []
    else if (p + 1) * perPage > |items| then items[p * perPage..]
    else
      assert (p + 1) * perPage == p * perPage + perPage;
      items[p * perPage..(p + 1) * perPage]
  }

  function Flatten(slices: seq<seq<string>>): seq<string> {
    if slices == [] then [] else Flatten(slices[..|slices| - 1]) + slices[|slices| - 1]
  }

  function Slices(items: seq<string>, perPage: nat, pages: nat): (slices: seq<seq<string>>)
    ensures |slices| == pages
    ensures forall p | 0 <= p < pages :: slices[p] == Slice(items, perPage, p)
  {
    seq(pages, p requires 0 <= p => Slice(items, perPage, p))
  }

  lemma FlattenSnoc(slices: seq<seq<string>>, last: seq<string>)
    ensures Flatten(slices + [last]) == Flatten(slices) + last
  {
    assert (slices + [last])[..|slices|] == slices;
  }

  lemma {:induction false} FlattenPrefix(items: seq<string>, perPage: nat, pages: nat)
    requires perPage > 0 && (pages > 0 ==> (pages - 1) * perPage < |items|)
    ensures Flatten(Slices(items, perPage, pages)) ==
            if pages * perPage <= |items| then items[..pages * perPage] else items
  {
    hide Slice, Flatten;
    if pages == 0 {
      NoSlices(items, perPage);
    } else {
      var before := pages - 1;
      var a, b := before * perPage, pages * perPage;
      assert b == a + perPage;
      assert before > 0 ==> (before - 1) * perPage < a by { assert a == (before - 1) * perPage + perPage; }
      FlattenPrefix(items, perPage, before);
      SliceIs(items, perPage, before);
      FlattenSnoc(Slices(items, perPage, before), Slice(items, perPage, before));
      assert Slices(items, perPage, pages) == Slices(items, perPage, before) + [Slice(items, perPage, before)];
      var end := if |items| <= b then |items| else b;
      assert items[..a] + items[a..end] == items[..end];
      assert end == |items| ==> items[..end] == items;
    }
  }

  lemma NoSlices(items: seq<string>, perPage: nat)
    ensures Flatten(Slices(items, perPage, 0)) == [] == items[..0 * perPage]
  {
  }

  /**
   The slices conserve the items: as many as the ceiling quotient, each non-empty and at most
   a page long, all but the last exactly a page, and end to end they are the list.
   */
  lemma SlicesConserve(items: seq<string>, perPage: nat)
    requires perPage > 0
    ensures var pages := CeilQuotient(|items|, perPage);
            && pages >= 0
            && Flatten(Slices(items, perPage, pages)) == items
            && (forall p | 0 <= p < pages :: 0 < |Slice(items, perPage, p)| <= perPage)
            && (forall p | 0 <= p < pages - 1 :: |Slice(items, perPage, p)| == perPage)
  {
    var pages := CeilQuotient(|items|, perPage);
    hide CeilQuotient;
    CeilQuotientIsLeast(|items|, perPage);
    FlattenPrefix(items, perPage, pages);
    forall p | 0 <= p < pages
      ensures 0 < |Slice(items, perPage, p)| <= perPage && (p < pages - 1 ==> |Slice(items, perPage, p)| == perPage)
    {
      SliceSize(items, perPage, pages, p);
    }
  }

  lemma SliceSize(items: seq<string>, perPage: nat, pages: nat, p: nat)
    requires perPage > 0 && p < pages && (pages - 1) * perPage < |items|
    ensures 0 < |Slice(items, perPage, p)| <= perPage && (p < pages - 1 ==> |Slice(items, perPage, p)| == perPage)
  {
    assert (p + 1) * perPage == p * perPage + perPage;
    assert p * perPage <= (pages - 1) * perPage by { Monotone(p, pages - 1, perPage); }
    if p < pages - 1 {
      Monotone(p + 1, pages - 1, perPage);
    }
  }

  lemma Monotone(a: nat, b: nat, k: nat)
    requires a <= b
    ensures a * k <= b * k
  {
  }

  // ---- Where an item is parsed ----

  /** A page's own file: the main output for the first page, numbered from 2 after it. */
  function OwnFile(p: nat): nat {
    if p == 0 then 0 else p + 1
  }

  /** The file the parser stands on when it parses an item: 0 for the main output, otherwise a page's number. */
  function FileAt(i: nat, perPage: nat): nat
    requires perPage > 0
  {
    if i % perPage != 0 then i / perPage + 1 else if perPage == 1 then 0 else i / perPage
  }

  lemma PageOfItem(i: nat, perPage: nat, p: nat)
    requires perPage > 0 && p * perPage <= i < (p + 1) * perPage
    ensures i / perPage == p && i % perPage == i - p * perPage
  {
    var q := i / perPage;
    PageBounds(i, perPage);
    if q < p {
      Monotone(q + 1, p, perPage);
      assert false;
    } else if q > p {
      Monotone(p + 1, q, perPage);
      assert false;
    }
    assert i == perPage * q + i % perPage;
  }

  /**
   The file changes only at a page's second item. So an item is parsed for its own page's file
   exactly when it is the very first, or stands on a later page and is not the first there.
   */
  lemma OwnFileIff(i: nat, perPage: nat)
    requires perPage > 0
    ensures FileAt(i, perPage) == OwnFile(i / perPage) <==> i == 0 || (i >= perPage && i % perPage != 0)
  {
    var p := i / perPage;
    PageBounds(i, perPage);
    if p == 0 {
      PageOfItem(i, perPage, 0);
    } else {
      Monotone(1, p, perPage);
    }
  }

  lemma PageBounds(i: nat, perPage: nat)
    requires perPage > 0
    ensures (i / perPage) * perPage <= i < (i / perPage + 1) * perPage
  {
    assert i == perPage * (i / perPage) + i % perPage;
    assert (i / perPage + 1) * perPage == (i / perPage) * perPage + perPage;
  }

  /**
   Which file an item is parsed for: after the first of its page, the file numbered one past the
   page; the first, the one before that, or the main output when pages hold one item.
   */
  lemma ItemIsParsedFor(p: nat, j: nat, perPage: nat)
    requires j < perPage
    ensures FileAt(p * perPage + j, perPage) == if j > 0 then p + 1 else if perPage > 1 then p else 0
  {
    assert (p + 1) * perPage == p * perPage + perPage;
    PageOfItem(p * perPage + j, perPage, p);
  }

  /** parse_replace: an item's text for the file the parser stands on, or a failure. */
  type Parse = (string, nat) -> Option<string>

  /** What an item comes to where it stands. */
  function ParsedItem(items: seq<string>, perPage: nat, parse: Parse, i: nat): Option<string>
    requires perPage > 0 && i < |items|
  {
    parse(items[i], FileAt(i, perPage))
  }

  predicate Parses(items: seq<string>, perPage: nat, parse: Parse, i: nat)
    requires perPage > 0 && i < |items|
  {
    ParsedItem(items, perPage, parse, i).Some?
  }

  function ItemAfter(items: seq<string>, perPage: nat, parse: Parse, n: nat, i: nat): string
    requires perPage > 0 && i < |items|
  {
    var parsed := ParsedItem(items, perPage, parse, i);
    if i < n && parsed.Some? then parsed.value else items[i]
  }

  /** The items up to a position parsed, those from there on as they were. */
  function ParsedTo(items: seq<string>, perPage: nat, parse: Parse, n: nat): (r: seq<string>)
    requires perPage > 0
    ensures |r| == |items|
    ensures forall i | 0 <= i < |items| :: r[i] == ItemAfter(items, perPage, parse, n, i)
  {
    seq(|items|, i requires 0 <= i < |items| => ItemAfter(items, perPage, parse, n, i))
  }

  class Pagination {
    var noItemsPerPage: nat
    var noPages: nat
    var indentAmount: string
    var separator: string
    var splitFile: (string, string)
    var items: seq<string>
    var pages: seq<string>

    /** reset. */
    constructor ()
      ensures noItemsPerPage == 25 && separator == "\n\n" && items == [] && pages == [] && noPages == 0
    {
      noItemsPerPage, noPages, indentAmount, separator := 25, 0, "", "\n\n";
      splitFile, items, pages := ("", ""), [], [];
    }

    /** Cuts the built text at the marker; without one it is an error. */
    method Split(parsedText: string) returns (ok: bool)
      modifies this`splitFile, this`indentAmount
      ensures ok <==> exists i :: 0 <= i <= |parsedText| && LooksAt(parsedText, i, MARKER)
      ensures ok ==> splitFile.0 + MARKER + splitFile.1 == parsedText
      ensures ok ==> forall i | 0 <= i < |splitFile.0| :: !LooksAt(parsedText, i, MARKER)
      ensures ok ==> indentAmount == Reverse(IntoWhitespace(LastLine(splitFile.0)))
      ensures !ok ==> splitFile == old(splitFile) && indentAmount == old(indentAmount)
    {
      var found := Find(parsedText, MARKER, 0);
      if found.None? {
        return false;
      }
      var pos := found.value;
      var before, after := parsedText[..pos], parsedText[pos + |MARKER|..];
      assert parsedText == before + parsedText[pos..pos + |MARKER|] + after;
      splitFile := (before, after);
      indentAmount := CollectIndent(before);
      ok := true;
    }

    /**
     The page loop: one page for each slice of the parsed items, joined with the separator. It
     fails at the first item that does not parse, with the pages before that one's made.
     */
    method MakePages(parse: Parse) returns (ok: bool)
      requires noItemsPerPage > 0 && pages == []
      modifies this`noPages, this`pages, this`items
      ensures noPages == CeilQuotient(|old(items)|, noItemsPerPage)
      ensures ok <==> forall i | 0 <= i < |old(items)| :: Parses(old(items), noItemsPerPage, parse, i)
      ensures ok ==> |pages| == noPages && items == []
      ensures ok ==> forall p | 0 <= p < noPages ::
                       pages[p] == Join(Slice(ParsedTo(old(items), noItemsPerPage, parse, |old(items)|),
                           noItemsPerPage, p), separator)
      ensures !ok ==> exists i | 0 <= i < |old(items)| ::
                        && !Parses(old(items), noItemsPerPage, parse, i)
                        && (forall j | 0 <= j < i :: Parses(old(items), noItemsPerPage, parse, j))
                        && items == ParsedTo(old(items), noItemsPerPage, parse, i)
                        && |pages| == i / noItemsPerPage
    {
      hide CeilQuotient, Join, Slice, FileAt, Parses;
      var noItems, perPage := |items|, noItemsPerPage;
      ghost var start := items;
      CeilQuotientIsLeast(noItems, perPage);
      noPages := CeilQuotient(noItems, perPage);
      var i, p, file := 0, 0, 0;
      assert items == ParsedTo(start, perPage, parse, 0);
      FirstFile(perPage);
      while p < noPages
        invariant noPages == CeilQuotient(noItems, perPage)
        invariant 0 <= p <= noPages && |pages| == p
        invariant i == if p * perPage <= noItems then p * perPage else noItems
        invariant forall j | 0 <= j < i :: Parses(start, perPage, parse, j)
        invariant items == ParsedTo(start, perPage, parse, i)
        invariant i < noItems ==> file == FileAt(i, perPage)
        invariant forall q | 0 <= q < p :: pages[q] == Join(Slice(items, perPage, q), separator)
      {
        Monotone(p, noPages - 1, perPage);
        assert (p + 1) * perPage == p * perPage + perPage;
        var end := if noItems <= (p + 1) * perPage then noItems else (p + 1) * perPage;
        ghost var before := items;
        var page;
        ok, page, file := MakePage(p, i, end, file, parse, start);
        if !ok {
          return;
        }
        forall q | 0 <= q < p
          ensures Slice(items, perPage, q) == Slice(before, perPage, q)
        {
          SliceKept(before, items, perPage, q, p);
        }
        SliceIs(items, perPage, p);
        i, p, pages := end, p + 1, pages + [page];
      }
      assert i == noItems;
      items := [];
      ok := true;
    }

    /** The item loop of one page. */
    method MakePage(p: nat, iStart: nat, end: nat, before: nat, parse: Parse, ghost start: seq<string>)
      returns (ok: bool, page: string, file: nat)
      requires noItemsPerPage > 0 && |start| == |items| && iStart == p * noItemsPerPage
      requires iStart < end <= |items| && end <= (p + 1) * noItemsPerPage
      requires end == |items| || end == (p + 1) * noItemsPerPage
      requires before == FileAt(iStart, noItemsPerPage)
      requires forall j | 0 <= j < iStart :: Parses(start, noItemsPerPage, parse, j)
      requires items == ParsedTo(start, noItemsPerPage, parse, iStart)
      modifies this`items
      ensures |items| == |start|
      ensures ok <==> forall j | iStart <= j < end :: Parses(start, noItemsPerPage, parse, j)
      ensures ok ==> && (forall j | 0 <= j < end :: Parses(start, noItemsPerPage, parse, j))
                     && items == ParsedTo(start, noItemsPerPage, parse, end)
                     && page == Join(items[iStart..end], separator)
                     && (end < |items| ==> file == FileAt(end, noItemsPerPage))
      ensures !ok ==> exists i | 0 <= i < |start| ::
                        && !Parses(start, noItemsPerPage, parse, i)
                        && (forall j | 0 <= j < i :: Parses(start, noItemsPerPage, parse, j))
                        && items == ParsedTo(start, noItemsPerPage, parse, i)
                        && p == i / noItemsPerPage
    {
      hide FileAt, ParsedTo, ParsedItem, Join, Parses;
      page, file := "", before;
      var i := iStart;
      NoItems(items, iStart, separator);
      while i < end
        invariant iStart <= i <= end && |items| == |start|
        invariant forall j | 0 <= j < i :: Parses(start, noItemsPerPage, parse, j)
        invariant items == ParsedTo(start, noItemsPerPage, parse, i)
        invariant page == Join(items[iStart..i], separator)
        invariant file == if i <= iStart + 1 then before else p + 1
      {
        PageOfItem(i, noItemsPerPage, p);
        FileOnPage(i, noItemsPerPage, p);
        if i != iStart {
          page := page + separator;
          file := p + 1;
        }
        var parsed := parse(items[i], file);
        ItemStep(start, noItemsPerPage, parse, i);
        if parsed.None? {
          return false, page, file;
        }
        ghost var was := items;
        items := items[i := parsed.value];
        PageStep(was, iStart, i, parsed.value, separator);
        page := page + items[i];
        i := i + 1;
      }
      if end < |items| {
        NextFile(noItemsPerPage, p);
      }
      ok := true;
    }
  }

  /** Parsing the next item. */
  lemma ItemStep(start: seq<string>, perPage: nat, parse: Parse, i: nat)
    requires perPage > 0 && i < |start|
    ensures var items, parsed := ParsedTo(start, perPage, parse, i), parse(start[i], FileAt(i, perPage));
            && items[i] == start[i]
            && (Parses(start, perPage, parse, i) <==> parsed.Some?)
            && (parsed.Some? ==> items[i := parsed.value] == ParsedTo(start, perPage, parse, i + 1))
  {
    hide FileAt;
  }

  lemma NoItems(items: seq<string>, i: nat, separator: string)
    requires i <= |items|
    ensures Join(items[i..i], separator) == ""
  {
  }

  lemma PageStep(items: seq<string>, iStart: nat, i: nat, item: string, separator: string)
    requires iStart <= i < |items|
    ensures var page := Join(items[iStart..i], separator);
            Join(items[i := item][iStart..i + 1], separator) == (if i == iStart then page else page + separator) + item
  {
    hide Join;
    assert items[i := item][iStart..i + 1] == items[iStart..i] + [item];
    JoinSnoc(items[iStart..i], item, separator);
    NoItems(items, iStart, separator);
  }

  lemma FirstFile(perPage: nat)
    requires perPage > 0
    ensures FileAt(0, perPage) == 0
  {
  }

  /** On a page after its first item the parser stands on the page's number. */
  lemma FileOnPage(i: nat, perPage: nat, p: nat)
    requires perPage > 0 && p * perPage <= i < (p + 1) * perPage
    ensures i != p * perPage ==> FileAt(i, perPage) == p + 1
  {
    if i != p * perPage {
      PageOfItem(i, perPage, p);
    }
  }

  /** The first item of the next page is parsed where the last page's last item was. */
  lemma NextFile(perPage: nat, p: nat)
    requires perPage > 0
    ensures FileAt((p + 1) * perPage, perPage) == if perPage == 1 then FileAt(p * perPage, perPage) else p + 1
  {
    assert (p + 1) * perPage < (p + 2) * perPage by { assert (p + 2) * perPage == (p + 1) * perPage + perPage; }
    assert p * perPage < (p + 1) * perPage by { assert (p + 1) * perPage == p * perPage + perPage; }
    PageOfItem((p + 1) * perPage, perPage, p + 1);
    PageOfItem(p * perPage, perPage, p);
  }

  lemma SliceKept(a: seq<string>, b: seq<string>, perPage: nat, q: nat, p: nat)
    requires perPage > 0 && q < p && |a| == |b|
    requires forall i | 0 <= i < |a| && i < p * perPage :: a[i] == b[i]
    ensures Slice(a, perPage, q) == Slice(b, perPage, q)
  {
    assert (q + 1) * perPage == q * perPage + perPage;
    Monotone(q + 1, p, perPage);
  }

  /** The whitespace image of a text from a position on, backwards. */
  function BackwardsFrom(before: string, i: nat): string
    requires i <= |before|
  {
    Reverse(IntoWhitespace(before[i..]))
  }

  /** The loop that collects the indent, walking left from the end to a newline or the start. */
  method CollectIndent(before: string) returns (indent: string)
    ensures indent == Reverse(IntoWhitespace(LastLine(before)))
  {
    hide Reverse, IntoWhitespace, LineStart, LastLine, BackwardsFrom;
    indent := "";
    BackwardsFromEnd(before);
    var p := |before| - 1;
    while p >= 0 && before[p] != '\n'
      invariant -1 <= p < |before|
      invariant forall k | p < k < |before| :: before[k] != '\n'
      invariant indent == BackwardsFrom(before, p + 1)
    {
      BackwardsGrows(before, p);
      indent := indent + (if before[p] == '\t' then "\t" else " ");
      p := p - 1;
    }
    LineStartIs(before, p + 1);
    BackwardsFromIs(before, p + 1);
  }

  lemma BackwardsFromIs(before: string, i: nat)
    requires i <= |before|
    ensures BackwardsFrom(before, i) == Reverse(IntoWhitespace(before[i..]))
  {
  }

  lemma BackwardsFromEnd(before: string)
    ensures BackwardsFrom(before, |before|) == ""
  {
  }

  lemma BackwardsGrows(before: string, p: nat)
    requires p < |before|
    ensures BackwardsFrom(before, p) == BackwardsFrom(before, p + 1) + (if before[p] == '\t' then "\t" else " ")
  {
    hide Reverse, IntoWhitespace;
    var rest := before[p + 1..];
    assert before[p..] == [before[p]] + rest;
    IntoWhitespaceCons(before[p], rest);
    ReverseCons(if before[p] == '\t' then '\t' else ' ', IntoWhitespace(rest));
  }

  lemma SliceIs(items: seq<string>, perPage: nat, p: nat)
    requires perPage > 0
    ensures p * perPage <= |items| ==>
              Slice(items, perPage, p) == items[p * perPage..if |items| <= (p + 1) * perPage then |items|
                  else (p + 1) * perPage]
    ensures p * perPage > |items| ==> Slice(items, perPage, p) == []
  {
    assert (p + 1) * perPage == p * perPage + perPage;
  }

  function Reverse(s: string): (r: string)
    ensures |r| == |s|
    ensures forall k | 0 <= k < |s| :: r[k] == s[|s| - 1 - k]
  {
    if s == [] then [] else Reverse(s[1..]) + [s[0]]
  }

  lemma ReverseCons(c: char, s: string)
    ensures Reverse([c] + s) == Reverse(s) + [c]
  {
    assert ([c] + s)[1..] == s;
  }

  lemma IntoWhitespaceCons(c: char, s: string)
    ensures IntoWhitespace([c] + s) == [if c == '\t' then '\t' else ' '] + IntoWhitespace(s)
  {
    IntoWhitespaceConcat([c], s);
    assert [c][..0] == [];
    assert IntoWhitespace([]) == [];
    assert IntoWhitespace([c]) == IntoWhitespace([]) + [if c == '\t' then '\t' else ' '];
  }

  lemma LineStartIs(s: string, i: nat)
    requires i <= |s| && (i > 0 ==> s[i - 1] == '\n') && forall k | i <= k < |s| :: s[k] != '\n'
    ensures LastLine(s) == s[i..]
  {
    var start := LineStart(s);
    assert !(start < i) && !(i < start);
  }

  // ---- The indentation of a page's later lines ----

  /** The text of one page file: pagination_thread puts the indent before every line but the first. */
  function PageText(splitFile: (string, string), indent: string, page: string): string {
    splitFile.0 + Join(Lines(page), "\n" + indent) + splitFile.1
  }

  /** The getline loop of pagination_thread. */
  method WritePage(splitFile: (string, string), indent: string, page: string) returns (pageStr: string)
    ensures pageStr == PageText(splitFile, indent, page)
  {
    hide Lines, Join;
    var lines := Lines(page);
    var body := "";
    for fileLineNo := 0 to |lines|
      invariant body == if fileLineNo == 0 then "" else Join(lines[..fileLineNo], "\n" + indent)
    {
      assert lines[..fileLineNo + 1] == lines[..fileLineNo] + [lines[fileLineNo]];
      JoinSnoc(lines[..fileLineNo], lines[fileLineNo], "\n" + indent);
      if fileLineNo > 0 {
        body := body + ("\n" + indent);
      }
      body := body + lines[fileLineNo];
    }
    assert lines[..|lines|] == lines;
    pageStr := splitFile.0 + body + splitFile.1;
  }

  /** Tabs stand where they stand when the line is read backwards. */
  predicate Mirrored(line: string) {
    forall j, k | 0 <= j < |line| && 0 <= k < |line| && j + k == |line| - 1 :: line[j] == '\t' <==> line[k] == '\t'
  }

  lemma MirroredIff(line: string)
    ensures Reverse(IntoWhitespace(line)) == IntoWhitespace(line) <==> Mirrored(line)
  {
    hide Reverse, IntoWhitespace;
    var w := IntoWhitespace(line);
    if Mirrored(line) {
      forall k | 0 <= k < |line|
        ensures Reverse(w)[k] == w[k]
      {
        var j := |line| - 1 - k;
        assert line[j] == '\t' <==> line[k] == '\t';
        assert IsBlank(w[j]) && IsBlank(w[k]);
      }
      assert Reverse(w) == w;
    } else {
      var j, k :| 0 <= j < |line| && 0 <= k < |line| && j + k == |line| - 1 && (line[j] == '\t') != (line[k] == '\t');
      assert Reverse(w)[k] == w[j];
    }
  }

  /** The lines of lines joined by breaks and an indent. */
  lemma LinesIndented(indent: string, text: string)
    requires '\n' !in indent
    ensures Lines(indent + text) == [indent + Lines(text)[0]] + Lines(text)[1..]
  {
    hide Lines;
    LinesConcat(indent, text);
    LinesOne(indent);
  }

  lemma {:induction false} LinesOfJoin(lines: seq<string>, indent: string)
    requires lines != [] && '\n' !in indent && forall k | 0 <= k < |lines| :: '\n' !in lines[k]
    ensures var parts := Lines(Join(lines, "\n" + indent));
            |parts| == |lines| && parts[0] == lines[0] && forall k | 0 < k < |lines| :: parts[k] == indent + lines[k]
    decreases |lines|
  {
    hide Lines, Join;
    if |lines| == 1 {
      JoinOne(lines[0], "\n" + indent);
      assert lines == [lines[0]];
      LinesOne(lines[0]);
    } else {
      JoinStep(lines, "\n" + indent);
      var rest := lines[1..];
      LinesOfJoin(rest, indent);
      var joined := Join(rest, "\n" + indent);
      Regrouped(lines[0], indent, joined);
      LinesCons(lines[0], indent + joined);
      LinesIndented(indent, joined);
      hide Glue;
      forall k | 1 < k < |lines|
        ensures Lines(joined)[k - 1] == indent + lines[k]
      {
        assert lines[k] == rest[k - 1];
      }
    }
  }

  lemma Regrouped(a: string, indent: string, b: string)
    ensures a + ("\n" + indent) + b == a + "\n" + (indent + b)
  {
  }

  /**
   A page's file is the text before the marker, the page's lines with all but the first on the
   indent, and the text after the marker. So a page of one line just stands in the marker's place.
   */
  lemma PageStandsInPlace(splitFile: (string, string), indent: string, page: string) returns (middle: string)
    requires '\n' !in indent
    ensures PageText(splitFile, indent, page) == splitFile.0 + middle + splitFile.1
    ensures |Lines(middle)| == |Lines(page)| && Lines(middle)[0] == Lines(page)[0]
    ensures forall k | 0 < k < |Lines(page)| :: Lines(middle)[k] == indent + Lines(page)[k]
    ensures '\n' !in page ==> middle == page
  {
    hide Lines, Join;
    middle := Join(Lines(page), "\n" + indent);
    LinesOfJoin(Lines(page), indent);
    if '\n' !in page {
      LinesOne(page);
      JoinOne(page, "\n" + indent);
    }
  }

  lemma PageLines(splitFile: (string, string), indent: string, page: string)
    requires '\n' !in indent
    ensures var first := |Lines(splitFile.0)|;
            var parts := Lines(PageText(splitFile, indent, page));
            && first + |Lines(page)| - 1 <= |parts|
            && forall k | first <= k < first + |Lines(page)| - 1 :: indent <= parts[k]
  {
    hide Lines, Join;
    var body := Join(Lines(page), "\n" + indent);
    LinesOfJoin(Lines(page), indent);
    LinesConcat(splitFile.0, body + splitFile.1);
    LinesConcat(body, splitFile.1);
    assert PageText(splitFile, indent, page) == splitFile.0 + (body + splitFile.1);
    var first, n := |Lines(splitFile.0)|, |Lines(page)|;
    var parts := Lines(PageText(splitFile, indent, page));
    forall k | first <= k < first + n - 1
      ensures indent <= parts[k]
    {
      assert parts[k] == Lines(body + splitFile.1)[k - first + 1];
      assert indent <= Lines(body)[k - first + 1];
    }
  }

  /** The column of the marker, as whitespace, and the indent collected for it. */
  function MarkerColumn(before: string): string {
    IntoWhitespace(LastLine(before))
  }

  function CollectedIndent(before: string): string {
    Reverse(IntoWhitespace(LastLine(before)))
  }

  /** The lines of a page's text that come from the page, after the first of those. */
  function LaterLines(splitFile: (string, string), page: string): (lines: seq<string>)
    ensures |lines| == |Lines(page)| - 1
  {
    var indent, first := CollectedIndent(splitFile.0), |Lines(splitFile.0)|;
    BlankBackwards(splitFile.0);
    PageLines(splitFile, indent, page);
    Lines(PageText(splitFile, indent, page))[first..first + |Lines(page)| - 1]
  }

  /** Each of them starts under the marker. */
  predicate LaterLinesAlign(splitFile: (string, string), page: string) {
    forall line | line in LaterLines(splitFile, page) :: MarkerColumn(splitFile.0) <= line
  }

  /**
   The indent is collected right to left. So the later lines of a page start with the
   whitespace image of what stands before the marker exactly when the page has one line, or
   the tabs before the marker read the same both ways.
   */
  lemma PagesAlignIff(splitFile: (string, string), page: string)
    ensures LaterLinesAlign(splitFile, page) <==> |Lines(page)| == 1 || Mirrored(LastLine(splitFile.0))
  {
    hide LineStart, Reverse, IntoWhitespace, LastLine, Lines, PageText;
    var before := splitFile.0;
    var indent, column := CollectedIndent(before), MarkerColumn(before);
    BlankBackwards(before);
    PageLines(splitFile, indent, page);
    MirroredIff(LastLine(before));
    var later := LaterLines(splitFile, page);
    assert forall line | line in later :: indent <= line;
    if later != [] {
      assert later[0] in later;
      if column <= later[0] {
        assert column == later[0][..|column|] == indent;
      }
    }
  }

  lemma BlankBackwards(before: string)
    ensures '\n' !in CollectedIndent(before) && |CollectedIndent(before)| == |MarkerColumn(before)|
  {
    hide LineStart, Reverse, IntoWhitespace, LastLine;
    var w := IntoWhitespace(LastLine(before));
    forall k | 0 <= k < |w|
      ensures Reverse(w)[k] != '\n'
    {
      assert IsBlank(w[|w| - 1 - k]);
    }
  }

  /** So after a tab and a space every page of two lines or more is out of line. */
  lemma MixedIndentMisaligns(after: string, page: string)
    requires |Lines(page)| > 1
    ensures !LaterLinesAlign(("\t ", after), page)
  {
    hide Reverse, IntoWhitespace, LineStart, LastLine, LaterLinesAlign;
    var before := "\t ";
    LineStartIs(before, 0);
    PagesAlignIff((before, after), page);
    assert before[0..] == before && before[0] == '\t' && before[1] != '\t';
  }

  // ---- Page files ----

  /** The page files of one tracked page, by number from 0. */
  class PageFiles {
    var files: map<nat, string>

    constructor (files: map<nat, string>)
      ensures this.files == files
    {
      this.files := files;
    }

    /** Removes the files of pages the last build had and this one does not. */
    method RemoveStale(noPages: nat, oldNoPages: nat)
      modifies this
      ensures files == StaleRemoved(old(files), noPages, oldNoPages)
    {
      var p := noPages;
      while p < oldNoPages
        invariant noPages <= p && (p <= oldNoPages || p == noPages)
        invariant files == map q | q in old(files) && !(noPages <= q < p) :: old(files)[q]
      {
        files := files - {p};
        p := p + 1;
      }
    }
  }

  /** The files but those of the pages from the new count up to the old one. */
  function StaleRemoved(files: map<nat, string>, noPages: nat, oldNoPages: nat): map<nat, string> {
    map p | p in files && !(noPages <= p < oldNoPages) :: files[p]
  }

  /** The texts of the page files of a build. */
  function PageTexts(splitFile: (string, string), indent: string, pages: seq<string>): (texts: seq<string>)
    ensures |texts| == |pages| && forall p | 0 <= p < |pages| :: texts[p] == PageText(splitFile, indent, pages[p])
  {
    seq(|pages|, p requires 0 <= p < |pages| => PageText(splitFile, indent, pages[p]))
  }
}
