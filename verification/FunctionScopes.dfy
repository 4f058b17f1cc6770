/**
 Scopes cut from names. A function runs under what comes up to the last dot of the name it is
 called by when the call has a layer of its own, and otherwise up to what find_last_of_special
 finds; a variable is private to the scope it is declared in and what comes before that place.
 */
module FunctionScopes {

  predicate Opens(c: char) {
    c == '(' || c == '[' || c == '{' || c == '<'
  }

  predicate Closes(c: char) {
    c == ')' || c == ']' || c == '}' || c == '>'
  }

  /** std::string::find_last_of a dot, or -1. */
  function LastDot(s: string): (d: int)
    ensures -1 <= d < |s|
    ensures d >= 0 ==> s[d] == '.'
    ensures forall k | d < k < |s| :: s[k] != '.'
  {
    if s == "" then -1 else if s[|s| - 1] == '.' then |s| - 1 else LastDot(s[..|s| - 1])
  }

  /** Backwards: the first dot outside of brackets, or the first bracket that opens the outermost; else the start. */
  function SpecialFrom(s: string, pos: int, depth: int): (r: int)
    requires -1 <= pos < |s|
    ensures -1 <= r <= pos && (pos >= 0 ==> r >= 0)
    decreases pos
  {
    if pos <= 0 || (s[pos] == '.' && depth == 0) || (Opens(s[pos]) && depth == 1) then pos
    else SpecialFrom(s, pos - 1, if Opens(s[pos]) then depth - 1 else if Closes(s[pos]) then depth + 1 else depth)
  }

  function LastSpecial(s: string): (r: int)
    ensures -1 <= r < |s| && (s != "" ==> r >= 0)
  {
    SpecialFrom(s, |s| - 1, 0)
  }

  /** find_last_of_special. */
  method FindLastOfSpecial(s: string) returns (pos: int)
    ensures pos == LastSpecial(s)
  {
    pos := |s| - 1;
    var depth := 0;
    while pos > 0
      invariant -1 <= pos < |s|
      invariant SpecialFrom(s, pos, depth) == LastSpecial(s)
    {
      if s[pos] == '.' && depth == 0 {
        return;
      } else if Opens(s[pos]) {
        if depth == 1 {
          return;
        }
        depth := depth - 1;
      } else if Closes(s[pos]) {
        depth := depth + 1;
      }
      pos := pos - 1;
    }
  }

  /** The scope put on top for a call. */
  function FunctionScope(name: string, scoped: bool): string {
    if scoped then name[..LastDot(name) + 1] else name[..LastSpecial(name) + 1]
  }

  /** What the name of a variable adds to the scope it is declared in. */
  function NameScope(name: string): string
    requires name != ""
  {
    if LastSpecial(name) == 0 then "" else name[..LastSpecial(name)] + "."
  }

  // ---- When the two agree ----

  /** How many more brackets close than open. */
  function Depth(s: string): int {
    if s == "" then 0 else Depth(s[1..]) + (if Closes(s[0]) then 1 else if Opens(s[0]) then -1 else 0)
  }

  /** No bracket in the text opens what a single one further on closes. */
  predicate NoGroup(s: string) {
    forall k | 0 <= k < |s| && Opens(s[k]) :: Depth(s[k + 1..]) != 1
  }

  lemma DepthStep(s: string, pos: nat)
    requires pos < |s|
    ensures Depth(s[pos..]) == Depth(s[pos + 1..]) + (if Closes(s[pos]) then 1 else if Opens(s[pos]) then -1 else 0)
  {
    assert s[pos..][1..] == s[pos + 1..] && s[pos..][0] == s[pos];
  }

  /** Going back from a position to a place, no such bracket is met. */
  predicate ClearTo(s: string, pos: int, d: nat)
    requires pos < |s|
  {
    forall k | d < k <= pos && Opens(s[k]) :: Depth(s[k + 1..]) != 1
  }

  lemma ClearStep(s: string, pos: int, d: nat)
    requires d < pos < |s|
    ensures ClearTo(s, pos, d) <==> ClearTo(s, pos - 1, d) && (Opens(s[pos]) ==> Depth(s[pos + 1..]) != 1)
  {
    hide Depth;
  }

  lemma {:induction false} SpecialBackTo(s: string, pos: int, d: nat)
    requires d <= pos < |s| && forall k | d < k < |s| :: s[k] != '.'
    ensures var r := SpecialFrom(s, pos, Depth(s[pos + 1..]));
            if ClearTo(s, pos, d) then r == SpecialFrom(s, d, Depth(s[d + 1..])) else r > d
    decreases pos
  {
    if pos == d {
    } else {
      DepthStep(s, pos);
      ClearStep(s, pos, d);
      hide ClearTo, Depth;
      SpecialBackTo(s, pos - 1, d);
    }
  }

  lemma ClearAfter(s: string, d: nat)
    requires d < |s|
    ensures NoGroup(s[d + 1..]) <==> ClearTo(s, |s| - 1, d)
  {
    var t := s[d + 1..];
    forall k | 0 <= k < |t|
      ensures t[k] == s[d + 1 + k] && t[k + 1..] == s[d + 1 + k + 1..]
    {
    }
    if NoGroup(t) {
      forall k | d < k < |s| && Opens(s[k])
        ensures Depth(s[k + 1..]) != 1
      {
        assert t[k - d - 1] == s[k];
      }
    }
  }

  /**
   A function runs under the same scope with and without a layer of its own exactly when its name
   has a dot, and no bracket after the last one ends a group or leaves one open, unless that dot
   is the first character. So a function without a dot in its name runs under the empty scope
   with a layer, and without one under a scope that is the start of its name.
   */
  lemma ScopesAgreeIff(name: string)
    requires name != ""
    ensures FunctionScope(name, true) == FunctionScope(name, false) <==>
            var d := LastDot(name);
            d >= 0 && NoGroup(name[d + 1..]) && (d == 0 || Depth(name[d + 1..]) == 0)
  {
    ScopesAre(name);
    hide *;
    var d := LastDot(name);
    if d >= 0 {
      SpecialIsIff(name, d);
    }
  }

  lemma SpecialIsIff(s: string, d: nat)
    requires d < |s| && s[d] == '.' && forall k | d < k < |s| :: s[k] != '.'
    ensures LastSpecial(s) == d <==> NoGroup(s[d + 1..]) && (d == 0 || Depth(s[d + 1..]) == 0)
  {
    assert s[|s|..] == "" && Depth("") == 0;
    hide NoGroup, Depth, ClearTo;
    SpecialBackTo(s, |s| - 1, d);
    ClearAfter(s, d);
    SpecialAtDot(s, d, Depth(s[d + 1..]));
    hide SpecialFrom;
  }

  lemma SpecialAtDot(s: string, d: nat, depth: int)
    requires d < |s| && s[d] == '.'
    ensures SpecialFrom(s, d, depth) == d <==> d == 0 || depth == 0
  {
  }

  lemma ScopesAre(name: string)
    requires name != ""
    ensures FunctionScope(name, true) == FunctionScope(name, false) <==> LastDot(name) == LastSpecial(name)
    ensures LastSpecial(name) >= 0
  {
    hide LastDot, SpecialFrom;
    PrefixesAgree(name, LastDot(name), LastSpecial(name));
  }

  lemma PrefixesAgree(s: string, d: int, e: int)
    requires -1 <= d < |s| && -1 <= e < |s|
    ensures s[..d + 1] == s[..e + 1] <==> d == e
  {
    assert |s[..d + 1]| == d + 1 && |s[..e + 1]| == e + 1;
  }

  predicate Unbracketed(s: string) {
    forall k | 0 <= k < |s| :: !Opens(s[k]) && !Closes(s[k])
  }

  /** Names without brackets. */
  lemma PlainNameScopes(name: string)
    requires name != "" && Unbracketed(name)
    ensures '.' in name ==> FunctionScope(name, true) == FunctionScope(name, false)
    ensures '.' !in name ==> FunctionScope(name, true) == "" && FunctionScope(name, false) == [name[0]]
  {
    var d := LastDot(name);
    if '.' in name {
      assert Unbracketed(name[d + 1..]) && NoGroup(name[d + 1..]);
      hide LastDot, FunctionScope, Depth;
      NoBrackets(name[d + 1..]);
      ScopesAgreeIff(name);
    } else {
      PlainBackwards(name, |name| - 1);
      hide SpecialFrom, LastDot;
      assert name[..1] == [name[0]] && name[..0] == "";
    }
  }

  /**
   Functions and variables of one prefix belong together: whatever the prefix, a variable declared
   under it in the empty scope is private to the scope its functions run under.
   */
  lemma NamesakesShareScope(prefix: string, variable: string, function': string, scoped: bool)
    requires prefix != "" && Unbracketed(prefix) && Unbracketed(variable) && Unbracketed(function')
    requires '.' !in variable && '.' !in function'
    ensures NameScope(prefix + "." + variable) == prefix + "."
    ensures FunctionScope(prefix + "." + function', scoped) == prefix + "."
  {
    var a, b, d := prefix + "." + variable, prefix + "." + function', |prefix|;
    assert a[..d] == prefix && b[..d + 1] == prefix + ".";
    hide SpecialFrom, LastDot, Unbracketed, Opens, Closes;
    DotIsLast(prefix, variable);
    DotIsLast(prefix, function');
    hide *;
    NameCut(a, prefix);
    FunctionCut(b, prefix, scoped);
  }

  lemma DotIsLast(prefix: string, rest: string)
    requires prefix != "" && Unbracketed(prefix) && Unbracketed(rest) && '.' !in rest
    ensures var s := prefix + "." + rest; LastDot(s) == LastSpecial(s) == |prefix|
  {
    var s, d := prefix + "." + rest, |prefix|;
    assert s[d] == '.' && forall k | d < k < |s| :: s[k] == rest[k - d - 1];
    assert forall k | d < k < |s| :: s[k] != '.';
    assert s[d + 1..] == rest;
    NoBrackets(rest);
    hide SpecialFrom, LastDot, Depth;
    SpecialIsIff(s, d);
  }

  lemma NameCut(s: string, prefix: string)
    requires |prefix| < |s| && s[..|prefix|] == prefix && prefix != "" && LastSpecial(s) == |prefix|
    ensures NameScope(s) == prefix + "."
  {
    hide SpecialFrom;
  }

  lemma FunctionCut(s: string, prefix: string, scoped: bool)
    requires |prefix| < |s| && s[..|prefix| + 1] == prefix + "." && LastDot(s) == LastSpecial(s) == |prefix|
    ensures FunctionScope(s, scoped) == prefix + "."
  {
    hide SpecialFrom, LastDot;
  }

  lemma {:induction false} NoBrackets(s: string)
    requires Unbracketed(s)
    ensures Depth(s) == 0
  {
    if s == "" {
    } else {
      NoBrackets(s[1..]);
    }
  }

  lemma {:induction false} PlainBackwards(s: string, pos: int)
    requires 0 <= pos < |s| && '.' !in s && Unbracketed(s)
    ensures SpecialFrom(s, pos, 0) == 0
    decreases pos
  {
    if pos == 0 {
    } else {
      PlainBackwards(s, pos - 1);
    }
  }
}
