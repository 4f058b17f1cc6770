/**
 Directory.cpp: the path from one directory to another. The loops are proved against
 functions, and these against walking the file tree.
 */
module Directories {
  import opened Paths
  import opened Results
  import opened Text

  /** Up to and including the first slash; nothing when there is none. */
  function LeadingDir(directory: string): string {
    match Find(directory, "/", 0)
    case None => ""
    case Some(pos) => directory[..pos + 1]
  }

  /** What is after the first slash; nothing when there is none. */
  function StripLeadingDir(directory: string): string {
    match Find(directory, "/", 0)
    case None => ""
    case Some(pos) => directory[pos + 1..]
  }

  /** The pieces of a directory in order, each with its slash. */
  function Pieces(pwd: string): seq<string>
    decreases |pwd|
  {
    if pwd == "" then [] else [LeadingDir(pwd)] + Pieces(StripLeadingDir(pwd))
  }

  function CommonPrefix(a: seq<string>, b: seq<string>): (n: nat)
    ensures n <= |a| && n <= |b| && forall k | 0 <= k < n :: a[k] == b[k]
    ensures n < |a| && n < |b| ==> a[n] != b[n]
  {
    if a != [] && b != [] && a[0] == b[0] then CommonPrefix(a[1..], b[1..]) + 1 else 0
  }

  function Repeat(s: string, n: nat): string {
    if n == 0 then "" else Repeat(s, n - 1) + s
  }

  function Concat(parts: seq<string>): string {
    if parts == [] then "" else Concat(parts[..|parts| - 1]) + parts[|parts| - 1]
  }

  /** What pathBetween returns. */
  function Between(source: string, target: string): string {
    if source == target then "./"
    else
      var s, t := Pieces(Comparable(source)), Pieces(Comparable(target));
      var n := CommonPrefix(s, t);
      Repeat("../", |s| - n) + Concat(t[n..])
  }

  method DirDeque(directory: string) returns (dDeque: seq<string>)
    ensures dDeque == Pieces(Comparable(directory))
  {
    hide Pieces, LeadingDir, StripLeadingDir;
    var pwd := Comparable(directory);
    dDeque := [];
    NoPieces();
    while |pwd| > 0
      invariant dDeque + Pieces(pwd) == Pieces(Comparable(directory))
      decreases |pwd|
    {
      PiecesStep(pwd);
      assert dDeque + Pieces(pwd) == dDeque + [LeadingDir(pwd)] + Pieces(StripLeadingDir(pwd));
      dDeque := dDeque + [LeadingDir(pwd)];
      pwd := StripLeadingDir(pwd);
    }
  }

  /** The loop that pops the pieces the two deques share. */
  method PopCommon(source: seq<string>, target: seq<string>)
    returns (sourceDeque: seq<string>, targetDeque: seq<string>)
    ensures var n := CommonPrefix(source, target);
            sourceDeque == source[n..] && targetDeque == target[n..]
  {
    sourceDeque, targetDeque := source, target;
    ghost var n := 0;
    while |sourceDeque| > 0 && |targetDeque| > 0 && sourceDeque[0] == targetDeque[0]
      invariant n <= |source| && n <= |target|
      invariant sourceDeque == source[n..] && targetDeque == target[n..]
      invariant CommonPrefix(source, target) == n + CommonPrefix(sourceDeque, targetDeque)
    {
      sourceDeque, targetDeque := sourceDeque[1..], targetDeque[1..];
      n := n + 1;
    }
  }

  lemma RepeatSnoc(n: nat)
    ensures Repeat("../", n + 1) == Repeat("../", n) + "../"
  {
  }

  lemma ConcatSnoc(parts: seq<string>, n: nat)
    requires n < |parts|
    ensures Concat(parts[..n + 1]) == Concat(parts[..n]) + parts[n]
  {
    assert parts[..n + 1][..n] == parts[..n];
  }

  method PathBetween(sourceDir: string, targetDir: string) returns (sourceToTarget: string)
    ensures sourceToTarget == Between(sourceDir, targetDir)
  {
    hide Repeat, Concat, CommonPrefix, Pieces, Comparable;
    if sourceDir == targetDir {
      return "./";
    }
    var sourceDeque := DirDeque(sourceDir);
    var targetDeque := DirDeque(targetDir);
    sourceDeque, targetDeque := PopCommon(sourceDeque, targetDeque);
    sourceToTarget := Spell(|sourceDeque|, targetDeque);
  }

  /** The loops that spell the result. */
  method Spell(ups: nat, targetDeque: seq<string>) returns (sourceToTarget: string)
    ensures sourceToTarget == Repeat("../", ups) + Concat(targetDeque)
  {
    hide *;
    EmptyRepeat();
    EmptyConcat();
    sourceToTarget := "";
    for s := 0 to ups
      invariant sourceToTarget == Repeat("../", s)
    {
      RepeatSnoc(s);
      sourceToTarget := sourceToTarget + "../";
    }
    for t := 0 to |targetDeque|
      invariant sourceToTarget == Repeat("../", ups) + Concat(targetDeque[..t])
    {
      ConcatSnoc(targetDeque, t);
      sourceToTarget := sourceToTarget + targetDeque[t];
    }
    assert targetDeque[..|targetDeque|] == targetDeque;
  }

  // ---- Walking the file tree ----

  /** Where a walk is: so many levels above where it started, then down the segments; or down from the root. */
  datatype Place = Place(rooted: bool, ups: nat, segs: seq<string>)

  function Up(p: Place): Place {
    if p.segs != [] then p.(segs := p.segs[..|p.segs| - 1])
    else if p.rooted then p
    else p.(ups := p.ups + 1)
  }

  function Enter(p: Place, component: string): Place {
    if component == "" || component == "." then p
    else if component == ".." then Up(p)
    else p.(segs := p.segs + [component])
  }

  function Walk(p: Place, path: string): Place
    decreases |path|
  {
    if path == "" then p
    else
      match Find(path, "/", 0)
      case None => Enter(p, path)
      case Some(pos) => Walk(Enter(p, path[..pos]), path[pos + 1..])
  }

  /** Resolving a path from a place; one that starts with a slash starts at the root. */
  function Resolve(from: Place, path: string): Place {
    Walk(if path != "" && path[0] == '/' then Place(true, 0, []) else from, path)
  }

  // ---- Directories without "." and ".." ----

  datatype Lead = Rooted | Relative | DotSlash

  /** A slash-terminated directory, possibly from the root or after a leading "./". */
  datatype Dir = Dir(lead: Lead, segs: seq<string>)

  predicate Segment(s: string) {
    s != "" && s != "." && s != ".." && '/' !in s
  }

  predicate ValidDir(d: Dir) {
    forall k | 0 <= k < |d.segs| :: Segment(d.segs[k])
  }

  function Slashed(segs: seq<string>): (r: seq<string>)
    ensures |r| == |segs| && forall k | 0 <= k < |segs| :: r[k] == segs[k] + "/"
  {
    seq(|segs|, k requires 0 <= k < |segs| => segs[k] + "/")
  }

  function DirText(d: Dir): string {
    (match d.lead case Rooted => "/" case Relative => "" case DotSlash => "./") + Concat(Slashed(d.segs))
  }

  function PlaceOf(d: Dir): Place {
    Place(d.lead.Rooted?, 0, d.segs)
  }

  /** So many steps up, then down the segments. */
  function Route(ups: nat, segs: seq<string>): string {
    Repeat("../", ups) + Concat(Slashed(segs))
  }

  /** Components of a path, "." counting as none. */
  function Cost(path: string): nat
    decreases |path|
  {
    if path == "" then 0
    else
      match Find(path, "/", 0)
      case None => if path == "." then 0 else 1
      case Some(pos) => (if path[..pos] == "." then 0 else 1) + Cost(path[pos + 1..])
  }

  // ---- Lemmas ----

  lemma FirstSlash(s: string, rest: string)
    requires '/' !in s
    ensures Find(s + "/" + rest, "/", 0) == Some(|s|)
    ensures (s + "/" + rest)[..|s|] == s && (s + "/" + rest)[|s| + 1..] == rest
  {
    var text := s + "/" + rest;
    assert LooksAt(text, |s|, "/") by { assert text[|s|..|s| + 1] == "/"; }
    forall k: nat | k < |s|
      ensures !LooksAt(text, k, "/")
    {
      assert text[k..k + 1][0] == s[k];
    }
  }

  lemma {:induction false} ConcatCons(part: string, parts: seq<string>)
    ensures Concat([part] + parts) == part + Concat(parts)
  {
    if parts == [] {
      assert [part] + parts == [part];
      assert [part][..0] == [];
    } else {
      var n := |parts| - 1;
      assert ([part] + parts)[..n + 1] == [part] + parts[..n];
      ConcatCons(part, parts[..n]);
    }
  }

  lemma SlashedCons(segs: seq<string>)
    requires segs != []
    ensures Concat(Slashed(segs)) == segs[0] + "/" + Concat(Slashed(segs[1..]))
  {
    assert Slashed(segs) == [segs[0] + "/"] + Slashed(segs[1..]);
    ConcatCons(segs[0] + "/", Slashed(segs[1..]));
  }

  lemma {:induction false} RepeatCons(s: string, n: nat)
    requires n > 0
    ensures Repeat(s, n) == s + Repeat(s, n - 1)
  {
    if n <= 1 {
    } else {
      RepeatCons(s, n - 1);
    }
  }

  lemma {:induction false} PiecesOfSegs(segs: seq<string>)
    requires forall k | 0 <= k < |segs| :: '/' !in segs[k]
    ensures Pieces(Concat(Slashed(segs))) == Slashed(segs)
  {
    hide Find, Concat, Slashed, Pieces, LeadingDir, StripLeadingDir;
    if segs == [] {
      assert Slashed(segs) == [];
      EmptyConcat();
      NoPieces();
    } else {
      SlashedCons(segs);
      PiecesOfSegs(segs[1..]);
      PiecesCons(segs[0], Concat(Slashed(segs[1..])));
      assert Slashed(segs) == [segs[0] + "/"] + Slashed(segs[1..]);
    }
  }

  lemma NoPieces()
    ensures Pieces("") == []
  {
  }

  lemma PiecesStep(pwd: string)
    requires pwd != ""
    ensures Pieces(pwd) == [LeadingDir(pwd)] + Pieces(StripLeadingDir(pwd))
    ensures |StripLeadingDir(pwd)| < |pwd|
  {
  }

  lemma PiecesCons(seg: string, rest: string)
    requires '/' !in seg
    ensures Pieces(seg + "/" + rest) == [seg + "/"] + Pieces(rest)
  {
    hide Find;
    FirstSlash(seg, rest);
    var text := seg + "/" + rest;
    assert LeadingDir(text) == seg + "/";
    assert StripLeadingDir(text) == rest;
  }

  lemma EmptyConcat()
    ensures Concat([]) == ""
  {
  }

  /** The pieces of a directory's text. */
  function DirPieces(d: Dir): seq<string> {
    (if d.lead.Rooted? then ["/"] else []) + Slashed(d.segs)
  }

  lemma PiecesOfDir(d: Dir)
    requires ValidDir(d)
    ensures Pieces(Comparable(DirText(d))) == DirPieces(d)
  {
    hide Concat, Find, Pieces, Slashed;
    var rest := Concat(Slashed(d.segs));
    PiecesOfSegs(d.segs);
    match d.lead {
      case Rooted =>
        assert DirText(d) == "/" + rest && DirText(d)[0] == '/';
        assert |rest| > 0 ==> DirText(d)[..2][0] == '/';
        PiecesCons("", rest);
        assert "" + "/" + rest == "/" + rest && "" + "/" == "/";
      case Relative =>
        NotDotSlash(d);
        assert DirText(d) == rest;
        assert DirPieces(d) == Slashed(d.segs);
      case DotSlash =>
        assert DirText(d)[..2] == "./" && DirText(d)[2..] == rest;
        assert DirPieces(d) == Slashed(d.segs);
    }
  }

  lemma NotDotSlash(d: Dir)
    requires ValidDir(d) && d.lead.Relative?
    ensures Comparable(DirText(d)) == DirText(d)
    ensures DirText(d) != "" ==> DirText(d)[0] != '/'
  {
    hide Concat;
    if d.segs == [] {
      EmptyConcat();
      assert Slashed(d.segs) == [];
    } else {
      SlashedCons(d.segs);
      var text := DirText(d);
      var seg := d.segs[0];
      assert text[0] == seg[0] && seg[0] in seg;
      assert text[1] == if |seg| == 1 then '/' else seg[1];
      assert |seg| == 1 ==> seg == [seg[0]];
      assert text[..2] == [text[0], text[1]];
    }
  }

  lemma {:induction false} WalkDown(p: Place, segs: seq<string>)
    requires forall k | 0 <= k < |segs| :: Segment(segs[k])
    ensures Walk(p, Concat(Slashed(segs))) == p.(segs := p.segs + segs)
    decreases |segs|
  {
    hide Find, Concat, Slashed;
    if segs == [] {
      assert Slashed(segs) == [];
      EmptyConcat();
      assert p.segs + segs == p.segs;
    } else {
      SlashedCons(segs);
      FirstSlash(segs[0], Concat(Slashed(segs[1..])));
      WalkDown(Enter(p, segs[0]), segs[1..]);
      assert p.segs + [segs[0]] + segs[1..] == p.segs + segs;
    }
  }

  function Climb(p: Place, n: nat): Place
    decreases n
  {
    if n == 0 then p else Climb(Up(p), n - 1)
  }

  lemma {:induction false} WalkUp(p: Place, n: nat, rest: string)
    ensures Walk(p, Repeat("../", n) + rest) == Walk(Climb(p, n), rest)
    decreases n
  {
    hide Find, Repeat;
    if n == 0 {
      EmptyRepeat();
      assert "" + rest == rest;
    } else {
      RepeatCons("../", n);
      var more := Repeat("../", n - 1) + rest;
      assert Repeat("../", n) + rest == ".." + "/" + more;
      FirstSlash("..", more);
      WalkUp(Up(p), n - 1, rest);
    }
  }

  lemma EmptyRepeat()
    ensures Repeat("../", 0) == ""
  {
  }

  lemma {:induction false} ClimbIs(p: Place, n: nat)
    ensures n <= |p.segs| ==> Climb(p, n) == p.(segs := p.segs[..|p.segs| - n])
    ensures n > |p.segs| ==> Climb(p, n) == p.(segs := [], ups := if p.rooted then p.ups else p.ups + n - |p.segs|)
    decreases n
  {
    if n == 0 {
    } else {
      ClimbIs(Up(p), n - 1);
    }
  }

  /** Where a route leads. */
  lemma RouteLeads(p: Place, ups: nat, segs: seq<string>)
    requires forall k | 0 <= k < |segs| :: Segment(segs[k])
    ensures Resolve(p, Route(ups, segs)) == Climb(p, ups).(segs := Climb(p, ups).segs + segs)
  {
    hide Find, Concat, Repeat;
    var down := Concat(Slashed(segs));
    WalkUp(p, ups, down);
    WalkDown(Climb(p, ups), segs);
    RouteIsRelative(ups, segs);
  }

  lemma RouteIsRelative(ups: nat, segs: seq<string>)
    requires forall k | 0 <= k < |segs| :: Segment(segs[k])
    ensures Route(ups, segs) != "" ==> Route(ups, segs)[0] != '/'
  {
    hide Concat, Repeat;
    if ups > 0 {
      RepeatCons("../", ups);
    } else {
      EmptyRepeat();
      NotDotSlash(Dir(Relative, segs));
      assert Route(ups, segs) == DirText(Dir(Relative, segs));
    }
  }

  lemma {:induction false} CostDown(segs: seq<string>)
    requires forall k | 0 <= k < |segs| :: Segment(segs[k])
    ensures Cost(Concat(Slashed(segs))) == |segs|
  {
    hide Find, Concat, Slashed;
    if segs == [] {
      assert Slashed(segs) == [];
      EmptyConcat();
    } else {
      SlashedCons(segs);
      FirstSlash(segs[0], Concat(Slashed(segs[1..])));
      CostDown(segs[1..]);
    }
  }

  lemma {:induction false} RouteCost(ups: nat, segs: seq<string>)
    requires forall k | 0 <= k < |segs| :: Segment(segs[k])
    ensures Cost(Route(ups, segs)) == ups + |segs|
  {
    hide Find, Repeat, Concat;
    var down := Concat(Slashed(segs));
    if ups == 0 {
      EmptyRepeat();
      assert "" + down == down;
      CostDown(segs);
    } else {
      RepeatCons("../", ups);
      var more := Repeat("../", ups - 1) + down;
      assert Route(ups, segs) == ".." + "/" + more;
      FirstSlash("..", more);
      RouteCost(ups - 1, segs);
    }
  }

  // ---- What pathBetween gives ----

  lemma SlashInjective(a: string, b: string)
    requires a + "/" == b + "/"
    ensures a == b
  {
    assert a == (a + "/")[..|a|] && b == (b + "/")[..|b|];
  }

  /** How many segments two directories share. */
  function Shared(s: Dir, t: Dir): (n: nat)
    ensures n <= |s.segs| && n <= |t.segs| && forall k | 0 <= k < n :: s.segs[k] == t.segs[k]
    ensures n < |s.segs| && n < |t.segs| ==> s.segs[n] != t.segs[n]
  {
    CommonPrefix(s.segs, t.segs)
  }

  lemma SamePrefix(a: seq<string>, b: seq<string>, n: nat)
    requires n <= |a| && n <= |b| && a[..n] == b[..n]
    ensures forall k | 0 <= k < n :: a[k] == b[k]
  {
    forall k | 0 <= k < n
      ensures a[k] == b[k]
    {
      assert a[..n][k] == b[..n][k];
    }
  }

  lemma PrefixIs(a: seq<string>, b: seq<string>, n: nat)
    requires n <= |a| && n <= |b| && forall k | 0 <= k < n :: a[k] == b[k]
    requires n < |a| && n < |b| ==> a[n] != b[n]
    ensures CommonPrefix(a, b) == n
  {
    hide CommonPrefix;
    var m := CommonPrefix(a, b);
    assert !(m < n) && !(n < m);
  }

  lemma SharedSlashed(s: Dir, t: Dir)
    ensures CommonPrefix(Slashed(s.segs), Slashed(t.segs)) == Shared(s, t)
  {
    hide CommonPrefix;
    var a, b, n := Slashed(s.segs), Slashed(t.segs), Shared(s, t);
    if n < |a| && n < |b| && a[n] == b[n] {
      SlashInjective(s.segs[n], t.segs[n]);
    }
    PrefixIs(a, b, n);
  }

  lemma SharedSlashedAt(s: Dir, t: Dir)
    ensures forall k | 0 <= k < Shared(s, t) :: Slashed(s.segs)[k] == Slashed(t.segs)[k]
  {
    hide Shared;
  }

  /** Between two directories that are both from the root or both not. */
  lemma BetweenAlike(s: Dir, t: Dir)
    requires ValidDir(s) && ValidDir(t) && s.lead.Rooted? == t.lead.Rooted?
    requires DirText(s) != DirText(t)
    ensures Between(DirText(s), DirText(t)) == Route(|s.segs| - Shared(s, t), t.segs[Shared(s, t)..])
  {
    hide DirText, Pieces, CommonPrefix, Repeat, Concat, Shared, Slashed;
    PiecesOfDir(s);
    PiecesOfDir(t);
    SharedSlashed(s, t);
    var a, b, n := Slashed(s.segs), Slashed(t.segs), Shared(s, t);
    if s.lead.Rooted? {
      assert forall k | 0 <= k < n :: a[k] == b[k] by { SharedSlashedAt(s, t); }
      PrefixIs(["/"] + a, ["/"] + b, n + 1);
      assert (["/"] + b)[n + 1..] == b[n..];
    } else {
      assert [] + a == a && [] + b == b;
    }
    assert b[n..] == Slashed(t.segs[n..]);
  }

  /** Between two directories only one of which is from the root, nothing is shared. */
  lemma BetweenUnlike(s: Dir, t: Dir)
    requires ValidDir(s) && ValidDir(t) && s.lead.Rooted? != t.lead.Rooted?
    requires DirText(s) != DirText(t)
    ensures Between(DirText(s), DirText(t)) == Repeat("../", |DirPieces(s)|) + Concat(DirPieces(t))
  {
    hide *;
    PiecesOfDir(s);
    PiecesOfDir(t);
    FirstPiecesDiffer(s, t);
    var a, b := DirPieces(s), DirPieces(t);
    PrefixIs(a, b, 0);
    BetweenAt(DirText(s), DirText(t), a, b, 0);
    assert b[0..] == b;
  }

  lemma BetweenAt(source: string, target: string, a: seq<string>, b: seq<string>, n: nat)
    requires source != target && Pieces(Comparable(source)) == a && Pieces(Comparable(target)) == b
    requires n == CommonPrefix(a, b)
    ensures Between(source, target) == Repeat("../", |a| - n) + Concat(b[n..])
  {
    hide Pieces, Comparable, CommonPrefix, Repeat, Concat;
  }

  lemma FirstPiecesDiffer(s: Dir, t: Dir)
    requires ValidDir(s) && ValidDir(t) && s.lead.Rooted? != t.lead.Rooted?
    ensures DirPieces(s) != [] && DirPieces(t) != [] ==> DirPieces(s)[0] != DirPieces(t)[0]
  {
    var other := if s.lead.Rooted? then t else s;
    assert other.segs != [] ==> |DirPieces(other)[0]| == |other.segs[0]| + 1 && |other.segs[0]| > 0;
  }

  lemma RootedStarts(d: Dir)
    requires ValidDir(d)
    ensures d.lead.Rooted? <==> DirText(d) != "" && DirText(d)[0] == '/'
  {
    hide Concat;
    match d.lead
    case Rooted => assert DirText(d)[0] == '/';
    case Relative => NotDotSlash(d);
    case DotSlash => assert DirText(d)[0] == '.';
  }

  lemma TextDecidesRoot(s: Dir, t: Dir)
    requires ValidDir(s) && ValidDir(t) && DirText(s) == DirText(t)
    ensures s.lead.Rooted? == t.lead.Rooted?
  {
    RootedStarts(s);
    RootedStarts(t);
  }

  lemma SameTextSamePlace(s: Dir, t: Dir)
    requires ValidDir(s) && ValidDir(t) && DirText(s) == DirText(t)
    ensures PlaceOf(s) == PlaceOf(t)
  {
    hide DirText, Pieces;
    TextDecidesRoot(s, t);
    PiecesOfDir(s);
    PiecesOfDir(t);
    var a, b := Slashed(s.segs), Slashed(t.segs);
    assert a == b by {
      assert DirPieces(s)[if s.lead.Rooted? then 1 else 0..] == a;
      assert DirPieces(t)[if t.lead.Rooted? then 1 else 0..] == b;
    }
    forall k | 0 <= k < |a|
      ensures s.segs[k] == t.segs[k]
    {
      assert a[k] == b[k];
      SlashInjective(s.segs[k], t.segs[k]);
    }
  }

  /** When pathBetween can be right: both from the root, both not, or from the current directory to the root's tree. */
  predicate Comparably(s: Dir, t: Dir) {
    s.lead.Rooted? == t.lead.Rooted? || (s.segs == [] && !s.lead.Rooted?)
  }

  lemma AlikeIsCorrect(s: Dir, t: Dir)
    requires ValidDir(s) && ValidDir(t) && s.lead.Rooted? == t.lead.Rooted?
    ensures Resolve(PlaceOf(s), Between(DirText(s), DirText(t))) == PlaceOf(t)
  {
    hide *;
    if DirText(s) == DirText(t) {
      SameTextSamePlace(s, t);
      BetweenSame(DirText(s));
      StayWalk(PlaceOf(s));
    } else {
      BetweenAlike(s, t);
      RouteArrives(s, t);
    }
  }

  lemma RouteArrives(s: Dir, t: Dir)
    requires ValidDir(s) && ValidDir(t) && s.lead.Rooted? == t.lead.Rooted?
    ensures Resolve(PlaceOf(s), Route(|s.segs| - Shared(s, t), t.segs[Shared(s, t)..])) == PlaceOf(t)
  {
    hide Route, Resolve, Shared;
    var n := Shared(s, t);
    RouteLeads(PlaceOf(s), |s.segs| - n, t.segs[n..]);
    ClimbIs(PlaceOf(s), |s.segs| - n);
    assert s.segs[..n] + t.segs[n..] == t.segs;
  }

  lemma BetweenSame(text: string)
    ensures Between(text, text) == "./"
  {
  }

  lemma StayWalk(p: Place)
    ensures Resolve(p, "./") == p
  {
    hide Find;
    FirstSlash(".", "");
    assert "." + "/" + "" == "./";
  }

  lemma UnlikeResolves(s: Dir, t: Dir)
    requires ValidDir(s) && ValidDir(t) && s.lead.Rooted? != t.lead.Rooted?
    ensures Resolve(PlaceOf(s), Between(DirText(s), DirText(t))) == PlaceOf(t) <==> Comparably(s, t)
  {
    hide DirText, Concat, Repeat, Find, Between, Walk;
    if DirText(s) == DirText(t) {
      TextDecidesRoot(s, t);
    }
    BetweenUnlike(s, t);
    if s.lead.Rooted? {
      assert DirPieces(t) == Slashed(t.segs);
      RouteLeads(PlaceOf(s), |DirPieces(s)|, t.segs);
      ClimbIs(PlaceOf(s), |DirPieces(s)|);
    } else {
      var down := Concat(Slashed(t.segs));
      ConcatCons("/", Slashed(t.segs));
      assert |DirPieces(s)| == |s.segs|;
      RootedTail(PlaceOf(s), |s.segs|, t.segs);
    }
  }

  /** A climb followed by a path from the root: only without any climb does it reach the root. */
  lemma RootedTail(p: Place, n: nat, segs: seq<string>)
    requires forall k | 0 <= k < |segs| :: Segment(segs[k])
    requires !p.rooted
    ensures var q := Resolve(p, Repeat("../", n) + ("/" + Concat(Slashed(segs))));
            if n == 0 then q == Place(true, 0, segs) else !q.rooted
  {
    hide Concat, Repeat, Find;
    var down := Concat(Slashed(segs));
    var start := if n == 0 then Place(true, 0, []) else p;
    if n == 0 {
      EmptyRepeat();
      assert "" + ("/" + down) == "/" + down;
    } else {
      RepeatCons("../", n);
    }
    WalkUp(start, n, "/" + down);
    FirstSlash("", down);
    assert "" + "/" + down == "/" + down;
    WalkDown(Climb(start, n), segs);
    ClimbIs(start, n);
    assert [] + segs == segs;
  }

  /**
   pathBetween is correct exactly when both directories are from the root, both are not, or
   the source is the current directory itself: then resolving its result from the source
   gives the target.
   */
  lemma PathBetweenCorrectIff(s: Dir, t: Dir)
    requires ValidDir(s) && ValidDir(t)
    ensures Resolve(PlaceOf(s), Between(DirText(s), DirText(t))) == PlaceOf(t) <==> Comparably(s, t)
  {
    if s.lead.Rooted? == t.lead.Rooted? {
      AlikeIsCorrect(s, t);
    } else {
      UnlikeResolves(s, t);
    }
  }

  /** pathBetween is shortest: no route of ups and then segments to the target has fewer components. */
  lemma PathBetweenIsShortest(s: Dir, t: Dir, ups: nat, segs: seq<string>)
    requires ValidDir(s) && ValidDir(t)
    requires forall k | 0 <= k < |segs| :: Segment(segs[k])
    requires Resolve(PlaceOf(s), Route(ups, segs)) == PlaceOf(t)
    ensures Cost(Between(DirText(s), DirText(t))) <= ups + |segs|
  {
    hide DirText, Concat, Repeat, Find, Between, Walk, Route, Resolve, Cost;
    RouteLeads(PlaceOf(s), ups, segs);
    ClimbIs(PlaceOf(s), ups);
    if DirText(s) == DirText(t) {
      BetweenSame(DirText(s));
      StayCost();
    } else {
      BetweenAlike(s, t);
      var n := Shared(s, t);
      RouteCost(|s.segs| - n, t.segs[n..]);
      if ups <= |s.segs| {
        var kept := |s.segs| - ups;
        assert t.segs == s.segs[..kept] + segs;
        assert t.segs[..kept] == s.segs[..kept];
        SamePrefix(t.segs, s.segs, kept);
        assert n >= kept;
      } else {
        assert t.segs == segs;
      }
    }
  }

  lemma StayCost()
    ensures Cost("./") == 0
  {
    hide Find;
    FirstSlash(".", "");
    assert "." + "/" + "" == "./";
  }

  /**
   From any relative directory but the current one, the result for a target from the root never
   leads to the root: "..//b/" from "a/" is not "/b/".
   */
  lemma RelativeToRootedGoesAstray(s: Dir, t: Dir)
    requires ValidDir(s) && ValidDir(t) && !s.lead.Rooted? && s.segs != [] && t.lead.Rooted?
    ensures PlaceOf(t).rooted && !Resolve(PlaceOf(s), Between(DirText(s), DirText(t))).rooted
  {
    hide DirText, Concat, Repeat, Find, Between, Walk, Resolve;
    if DirText(s) == DirText(t) {
      TextDecidesRoot(s, t);
      assert false;
    }
    BetweenUnlike(s, t);
    ConcatCons("/", Slashed(t.segs));
    assert |DirPieces(s)| == |s.segs|;
    RootedTail(PlaceOf(s), |s.segs|, t.segs);
  }

  /** From a directory from the root, the result for a relative target always stays under the root. */
  lemma RootedToRelativeGoesAstray(s: Dir, t: Dir)
    requires ValidDir(s) && ValidDir(t) && s.lead.Rooted? && !t.lead.Rooted?
    ensures !PlaceOf(t).rooted && Resolve(PlaceOf(s), Between(DirText(s), DirText(t))).rooted
  {
    hide DirText, Concat, Repeat, Find, Between, Walk, Resolve;
    if DirText(s) == DirText(t) {
      TextDecidesRoot(s, t);
      assert false;
    }
    BetweenUnlike(s, t);
    assert DirPieces(t) == Slashed(t.segs);
    RouteLeads(PlaceOf(s), |DirPieces(s)|, t.segs);
    ClimbIs(PlaceOf(s), |DirPieces(s)|);
  }
}
