/** What keys do to a line, told by the text around the cursor and not by how far the loops run. */
module KeyStrokes {
  import opened LineEditor
  import opened Results
  import opened Text

  /** The same line otherwise. */
  function Around(z: Zipper, before: string, after: string): Zipper {
    z.(before := before, after := after)
  }

  predicate Word(s: string) {
    forall k | 0 <= k < |s| :: IsAlnum(s[k])
  }

  // ---- Steps ----

  lemma {:induction false} LeftsPass(z: Zipper, p: string, q: string, lines: seq<string>)
    requires z.cLine <= |lines| && z.before == p + q
    ensures AllPressed(z, Times(Left, |q|), lines) == Around(z, p, q + z.after)
    decreases |q|
  {
    if q == "" {
      assert p + q == p && q + z.after == z.after;
    } else {
      var n := |q| - 1;
      assert Times(Left, |q|)[1..] == Times(Left, n);
      assert z.before[..|z.before| - 1] == p + q[..n] && z.before[|z.before| - 1..] == [q[n]];
      LeftsPass(Around(z, p + q[..n], [q[n]] + z.after), p, q[..n], lines);
      assert q[..n] + ([q[n]] + z.after) == q + z.after;
    }
  }

  lemma {:induction false} RightsPass(z: Zipper, p: string, q: string, lines: seq<string>)
    requires z.cLine <= |lines| && z.after == p + q
    ensures AllPressed(z, Times(Right, |p|), lines) == Around(z, z.before + p, q)
    decreases |p|
  {
    if p == "" {
      assert p + q == q && z.before + p == z.before;
    } else {
      assert Times(Right, |p|)[1..] == Times(Right, |p| - 1);
      assert z.after[..1] == [p[0]] && z.after[1..] == p[1..] + q;
      RightsPass(Around(z, z.before + [p[0]], p[1..] + q), p[1..], q, lines);
      assert z.before + [p[0]] + p[1..] == z.before + p;
    }
  }

  lemma {:induction false} LeftsStop(z: Zipper, n: nat, lines: seq<string>)
    requires z.cLine <= |lines| && z.before == ""
    ensures AllPressed(z, Times(Left, n), lines) == z
    decreases n
  {
    if n <= 0 {
    } else {
      assert Times(Left, n)[1..] == Times(Left, n - 1);
      LeftsStop(z, n - 1, lines);
    }
  }

  lemma {:induction false} RightsStop(z: Zipper, n: nat, lines: seq<string>)
    requires z.cLine <= |lines| && z.after == ""
    ensures AllPressed(z, Times(Right, n), lines) == z
    decreases n
  {
    if n <= 0 {
    } else {
      assert Times(Right, n)[1..] == Times(Right, n - 1);
      RightsStop(z, n - 1, lines);
    }
  }

  lemma TimesSplit(key: Key, m: nat, n: nat)
    ensures Times(key, m + n) == Times(key, m) + Times(key, n)
  {
  }

  lemma LeftsGo(z: Zipper, n: nat, lines: seq<string>)
    requires z.cLine <= |lines|
    ensures var k := if n <= |z.before| then |z.before| - n else 0;
            AllPressed(z, Times(Left, n), lines) == Around(z, z.before[..k], z.before[k..] + z.after)
  {
    hide AllPressed, Times;
    var k := if n <= |z.before| then |z.before| - n else 0;
    var m := |z.before| - k;
    assert z.before == z.before[..k] + z.before[k..];
    LeftsPass(z, z.before[..k], z.before[k..], lines);
    if m < n {
      TimesSplit(Left, m, n - m);
      PressedInTurn(z, Times(Left, m), Times(Left, n - m), lines);
      LeftsStop(Around(z, z.before[..k], z.before[k..] + z.after), n - m, lines);
    }
  }

  lemma RightsGo(z: Zipper, n: nat, lines: seq<string>)
    requires z.cLine <= |lines|
    ensures var k := if n <= |z.after| then n else |z.after|;
            AllPressed(z, Times(Right, n), lines) == Around(z, z.before + z.after[..k], z.after[k..])
  {
    hide AllPressed, Times;
    var k := if n <= |z.after| then n else |z.after|;
    assert z.after == z.after[..k] + z.after[k..];
    RightsPass(z, z.after[..k], z.after[k..], lines);
    if k < n {
      TimesSplit(Right, k, n - k);
      PressedInTurn(z, Times(Right, k), Times(Right, n - k), lines);
      RightsStop(Around(z, z.before + z.after[..k], z.after[k..]), n - k, lines);
    }
  }

  /** Text typed after some steps left goes in before the characters stepped over, and the cursor stays behind it. */
  lemma TypedAfterLefts(z: Zipper, p: string, q: string, text: string, lines: seq<string>)
    requires z.cLine <= |lines| && z.before == p + q
    ensures AllPressed(z, Times(Left, |q|) + Typing(text), lines) == Around(z, p + text, q + z.after)
  {
    hide AllPressed, Times, Typing;
    PressedInTurn(z, Times(Left, |q|), Typing(text), lines);
    LeftsPass(z, p, q, lines);
    TypingInserts(Around(z, p, q + z.after), text, lines);
  }

  /** After steps right it goes in behind the characters stepped over. */
  lemma TypedAfterRights(z: Zipper, p: string, q: string, text: string, lines: seq<string>)
    requires z.cLine <= |lines| && z.after == p + q
    ensures AllPressed(z, Times(Right, |p|) + Typing(text), lines) == Around(z, z.before + p + text, q)
  {
    hide AllPressed, Times, Typing;
    PressedInTurn(z, Times(Right, |p|), Typing(text), lines);
    RightsPass(z, p, q, lines);
    TypingInserts(Around(z, z.before + p, q), text, lines);
  }

  /**
   Steps right take back as many steps left exactly when none of those was stopped by the
   start, or there is nothing behind the cursor; and the other way round.
   */
  lemma StepsCancelIff(z: Zipper, n: nat, lines: seq<string>)
    requires z.cLine <= |lines|
    ensures AllPressed(z, Times(Left, n) + Times(Right, n), lines) == z <==> n <= |z.before| || z.after == ""
    ensures AllPressed(z, Times(Right, n) + Times(Left, n), lines) == z <==> n <= |z.after| || z.before == ""
  {
    hide AllPressed, Times;
    PressedInTurn(z, Times(Left, n), Times(Right, n), lines);
    PressedInTurn(z, Times(Right, n), Times(Left, n), lines);
    LeftsGo(z, n, lines);
    RightsGo(z, n, lines);
    var k := if n <= |z.before| then |z.before| - n else 0;
    var m := if n <= |z.after| then n else |z.after|;
    RightsGo(Around(z, z.before[..k], z.before[k..] + z.after), n, lines);
    LeftsGo(Around(z, z.before + z.after[..m], z.after[m..]), n, lines);
    LeftThenRight(z.before, z.after, n);
    RightThenLeft(z.before, z.after, n);
    hide *;
  }

  lemma LeftThenRight(before: string, after: string, n: nat)
    ensures var k := if n <= |before| then |before| - n else 0;
            var rest := before[k..] + after;
            var m := if n <= |rest| then n else |rest|;
            before[..k] + rest[..m] == before && rest[m..] == after <==> n <= |before| || after == ""
  {
    var k := if n <= |before| then |before| - n else 0;
    var rest := before[k..] + after;
    if n <= |before| {
      assert rest[..n] == before[k..];
    } else if after == "" {
      assert rest == before;
    }
  }

  lemma RightThenLeft(before: string, after: string, n: nat)
    ensures var m := if n <= |after| then n else |after|;
            var front := before + after[..m];
            var k := if n <= |front| then |front| - n else 0;
            front[..k] == before && front[k..] + after[m..] == after <==> n <= |after| || before == ""
  {
    var m := if n <= |after| then n else |after|;
    var front := before + after[..m];
    if n <= |after| {
      assert front[..|before|] == before && front[|before|..] == after[..m];
    } else if before == "" {
      assert front == after;
    }
  }

  lemma Both(z: Zipper, first: Key, second: Key, lines: seq<string>)
    requires z.cLine <= |lines|
    ensures AllPressed(z, [first, second], lines) == Pressed(Pressed(z, first, lines), second, lines)
  {
    hide Pressed;
    var z' := Pressed(z, first, lines);
    assert [second][1..] == [];
    assert AllPressed(z', [second], lines) == Pressed(z', second, lines);
    assert [first, second][1..] == [second];
  }

  // ---- The ends of the line ----

  /** Whatever the line and the cursor, these keys leave the text in front of the line, or behind it. */
  lemma TypedAtTheEnds(z: Zipper, text: string, lines: seq<string>)
    requires z.cLine <= |lines|
    ensures AllPressed(z, [LineHome] + Typing(text), lines) == Around(z, text, z.before + z.after)
    ensures AllPressed(z, [LineEnd] + Typing(text), lines) == Around(z, z.before + z.after + text, "")
  {
    hide Typing;
    var line := z.before + z.after;
    assert z.before[0..] == z.before && z.before[..0] == "" && "" + text == text;
    assert z.after[..|z.after|] == z.after && z.after[|z.after|..] == "";
    TypingInserts(Around(z, "", line), text, lines);
    TypingInserts(Around(z, line, ""), text, lines);
    assert ([LineHome] + Typing(text))[1..] == Typing(text);
    assert ([LineEnd] + Typing(text))[1..] == Typing(text);
  }

  /** Cutting to the end takes out what is behind the cursor. So any text comes to stand alone. */
  lemma TypedAlone(z: Zipper, text: string, lines: seq<string>)
    requires z.cLine <= |lines|
    ensures AllPressed(z, [KillToEnd] + Typing(text), lines) == Around(z, z.before + text, "")
    ensures AllPressed(z, [LineHome, KillToEnd] + Typing(text), lines) == Around(z, text, "")
  {
    assert "" + text == text && z.before[..0] == "" && [KillToEnd][1..] == [];
    Both(z, LineHome, KillToEnd, lines);
    hide AllPressed, Typing;
    PressedInTurn(z, [KillToEnd], Typing(text), lines);
    PressedInTurn(z, [LineHome, KillToEnd], Typing(text), lines);
    TypingInserts(Around(z, z.before, ""), text, lines);
    TypingInserts(Around(z, "", ""), text, lines);
  }

  /** A tab types its completion, or two spaces. */
  lemma TabTypes(z: Zipper, completion: string, lines: seq<string>)
    requires z.cLine <= |lines|
    ensures AllPressed(z, [Tab(Some(completion))], lines) == AllPressed(z, Typing(completion), lines)
    ensures AllPressed(z, [Tab(None)], lines) == AllPressed(z, Typing("  "), lines)
  {
    hide Typing;
    TypingInserts(z, completion, lines);
    TypingInserts(z, "  ", lines);
    assert [Tab(Some(completion))][1..] == [] && [Tab(None)][1..] == [];
  }

  // ---- Words ----

  lemma WordSuffix(p: string, w: string)
    requires Word(w) && (p != "" ==> !IsAlnum(p[|p| - 1]))
    ensures AlnumSuffix(p + w) == |w|
  {
    hide AlnumSuffix;
    var s, n := p + w, AlnumSuffix(p + w);
    assert forall k | |p| <= k < |s| :: s[k] == w[k - |p|];
    assert p != "" ==> s[|p| - 1] == p[|p| - 1];
  }

  lemma WordPrefix(w: string, q: string)
    requires Word(w) && (q != "" ==> !IsAlnum(q[0]))
    ensures AlnumPrefix(w + q) == |w|
  {
    hide AlnumPrefix;
    var s, n := w + q, AlnumPrefix(w + q);
    assert forall k | 0 <= k < |w| :: s[k] == w[k];
    assert q != "" ==> s[|w|] == q[0];
  }

  lemma BlankEnd(p: string, blanks: string)
    requires AllBlank(blanks) && (p != "" ==> !IsBlank(p[|p| - 1]))
    ensures BlankSuffix(p + blanks) == |blanks|
  {
    hide BlankSuffix;
    var s, n := p + blanks, BlankSuffix(p + blanks);
    assert forall k | |p| <= k < |s| :: s[k] == blanks[k - |p|];
    assert p != "" ==> s[|p| - 1] == p[|p| - 1];
  }

  lemma BlankStart(blanks: string, q: string)
    requires AllBlank(blanks) && (q != "" ==> !IsBlank(q[0]))
    ensures BlankPrefix(blanks + q) == |blanks|
  {
    hide BlankPrefix;
    var s, n := blanks + q, BlankPrefix(blanks + q);
    assert forall k | 0 <= k < |blanks| :: s[k] == blanks[k];
    assert q != "" ==> s[|blanks|] == q[0];
  }

  /** A word step left passes a word and the character before it, or a word that starts the line. */
  lemma WordLeftPasses(z: Zipper, p: string, c: char, w: string, lines: seq<string>)
    requires z.cLine <= |lines| && Word(w)
    ensures z.before == p + [c] + w && !IsAlnum(c) ==> Pressed(z, WordLeft, lines) == Around(z, p, [c] + w + z.after)
    ensures z.before == w ==> Pressed(z, WordLeft, lines) == Around(z, "", w + z.after)
  {
    hide AlnumSuffix;
    if z.before == p + [c] + w && !IsAlnum(c) {
      WordSuffix(p + [c], w);
      assert z.before == p + ([c] + w);
      assert z.before[..|p|] == p && z.before[|p|..] == [c] + w;
    }
    if z.before == w {
      assert "" + w == w;
      WordSuffix("", w);
      assert z.before[..0] == "" && z.before[0..] == w;
    }
  }

  /** One to the right passes the next character and the word after it. */
  lemma WordRightPasses(z: Zipper, c: char, w: string, q: string, lines: seq<string>)
    requires z.cLine <= |lines| && Word(w) && z.after == [c] + w + q && (q != "" ==> !IsAlnum(q[0]))
    ensures Pressed(z, WordRight, lines) == Around(z, z.before + [c] + w, q)
  {
    hide AlnumPrefix;
    assert z.after[1..] == w + q;
    WordPrefix(w, q);
    assert z.after[..1 + |w|] == [c] + w && z.after[1 + |w|..] == q;
    assert z.before + [c] + w == z.before + ([c] + w);
  }

  lemma WordAndRun(w: string, run: string)
    requires Word(w) && Word(run)
    ensures Word(w + run)
    ensures w != "" ==> w + run == [w[0]] + (w[1..] + run) && Word(w[1..] + run)
  {
  }

  /** A word step left and one right land behind the word under the cursor, when they start behind anything. */
  lemma WordStepsLand(z: Zipper, p: string, w: string, run: string, rest: string, lines: seq<string>)
    requires z.cLine <= |lines| && z.before == p + w && z.before != "" && Word(w) && (p != "" ==> !IsAlnum(p[|p| - 1]))
    requires z.after == run + rest && Word(run) && (rest != "" ==> !IsAlnum(rest[0]))
    ensures Pressed(Pressed(z, WordLeft, lines), WordRight, lines) == Around(z, z.before + run, rest)
  {
    hide Pressed, Word, IsAlnum;
    WordAndRun(w, run);
    if p == "" {
      assert z.before == w;
      WordLeftPasses(z, "", ' ', w, lines);
      StartsWithWord(z, w, run, rest, lines);
    } else {
      BreakLast(p, w, run, rest);
      WordLeftPasses(z, p[..|p| - 1], p[|p| - 1], w, lines);
      StartsWithBreak(z, p[..|p| - 1], p[|p| - 1], w + run, rest, lines);
    }
  }

  lemma BreakLast(p: string, w: string, run: string, rest: string)
    requires p != ""
    ensures var q, c := p[..|p| - 1], p[|p| - 1];
            && p + w == q + [c] + w && q + [c] + (w + run) == p + w + run
            && [c] + w + (run + rest) == [c] + (w + run) + rest
  {
  }

  lemma StartsWithWord(z: Zipper, w: string, run: string, rest: string, lines: seq<string>)
    requires z.cLine <= |lines| && w != "" && Word(w) && z.after == run + rest && Word(run)
    requires rest != "" ==> !IsAlnum(rest[0])
    ensures Pressed(Around(z, "", w + z.after), WordRight, lines) == Around(z, w + run, rest)
  {
    WordAndRun(w, run);
    hide Pressed, Word;
    assert w + z.after == [w[0]] + (w[1..] + run) + rest;
    WordRightPasses(Around(z, "", w + z.after), w[0], w[1..] + run, rest, lines);
    assert "" + [w[0]] + (w[1..] + run) == w + run;
  }

  lemma StartsWithBreak(z: Zipper, q: string, c: char, run: string, rest: string, lines: seq<string>)
    requires z.cLine <= |lines| && Word(run) && (rest != "" ==> !IsAlnum(rest[0]))
    ensures Pressed(Around(z, q, [c] + run + rest), WordRight, lines) == Around(z, q + [c] + run, rest)
  {
    hide Pressed, Word;
    WordRightPasses(Around(z, q, [c] + run + rest), c, run, rest, lines);
  }

  /** A text cut before the word it ends with, and one cut after the word it starts with. */
  lemma WordCuts(s: string) returns (p: string, w: string, run: string, rest: string)
    ensures s == p + w && Word(w) && (p != "" ==> !IsAlnum(p[|p| - 1]))
    ensures s == run + rest && Word(run) && (rest != "" ==> !IsAlnum(rest[0]))
  {
    hide AlnumSuffix, AlnumPrefix;
    var j, k := |s| - AlnumSuffix(s), AlnumPrefix(s);
    p, w, run, rest := s[..j], s[j..], s[..k], s[k..];
  }

  /**
   A word step right takes back one left exactly when there is nothing behind the cursor, or
   something before it and no letter or digit right behind it.
   */
  lemma WordStepsCancelIff(z: Zipper, lines: seq<string>)
    requires z.cLine <= |lines|
    ensures AllPressed(z, [WordLeft, WordRight], lines) == z <==>
            z.after == "" || (z.before != "" && !IsAlnum(z.after[0]))
  {
    var p, w, _, _ := WordCuts(z.before);
    var _, _, run, rest := WordCuts(z.after);
    Both(z, WordLeft, WordRight, lines);
    if z.before != "" {
      WordStepsLand(z, p, w, run, rest, lines);
      LandsBack(z.before, z.after, run, rest);
    } else {
      FromTheStart(z, lines);
    }
    hide *;
  }

  lemma LandsBack(before: string, after: string, run: string, rest: string)
    requires after == run + rest && Word(run) && (rest != "" ==> !IsAlnum(rest[0]))
    ensures before + run == before && rest == after <==> after == "" || !IsAlnum(after[0])
  {
    if run == "" {
      assert before + run == before && rest == after;
    } else {
      assert |before + run| > |before| && after[0] == run[0];
    }
  }

  lemma FromTheStart(z: Zipper, lines: seq<string>)
    requires z.cLine <= |lines| && z.before == ""
    ensures Pressed(Pressed(z, WordLeft, lines), WordRight, lines) == z <==> z.after == ""
  {
    assert "" + z.after == z.after;
    WordLeftPasses(z, "", ' ', "", lines);
    if z.after == "" {
      AtTheEnd(z, lines);
    } else {
      var _, _, run, rest := WordCuts(z.after[1..]);
      assert z.after == [z.after[0]] + run + rest;
      hide Pressed;
      WordRightPasses(z, z.after[0], run, rest, lines);
    }
  }

  lemma AtTheEnd(z: Zipper, lines: seq<string>)
    requires z.cLine <= |lines| && z.after == ""
    ensures Pressed(z, WordRight, lines) == z
  {
    assert z.before + z.after[..0] == z.before && z.after[0..] == z.after;
  }

  /**
   Deleting a word to the left takes out blanks before the cursor, the character before those
   whatever it is, and the word that character ends. Blanks alone all go.
   */
  lemma WordLeftDeletes(z: Zipper, p: string, w: string, c: char, blanks: string, lines: seq<string>)
    requires z.cLine <= |lines| && Word(w) && AllBlank(blanks) && !IsBlank(c) && (p != "" ==> !IsAlnum(p[|p| - 1]))
    ensures z.before == p + w + [c] + blanks ==> Pressed(z, DeleteWordLeft, lines) == Around(z, p, z.after)
    ensures z.before == blanks ==> Pressed(z, DeleteWordLeft, lines) == Around(z, "", z.after)
  {
    hide AlnumSuffix, BlankSuffix;
    if z.before == p + w + [c] + blanks {
      BlankEnd(p + w + [c], blanks);
      assert z.before[..|p + w|] == p + w;
      WordSuffix(p, w);
      assert z.before[..|p|] == p;
    }
    if z.before == blanks {
      assert "" + blanks == blanks;
      BlankEnd("", blanks);
    }
  }

  /**
   Deleting one to the right takes out blanks, a word, and the character after it whatever it is;
   or what there is of these.
   */
  lemma WordRightDeletes(z: Zipper, blanks: string, w: string, c: char, q: string, lines: seq<string>)
    requires z.cLine <= |lines| && Word(w) && AllBlank(blanks) && !IsAlnum(c) && (w == "" ==> !IsBlank(c))
    ensures z.after == blanks + w + [c] + q ==> Pressed(z, DeleteWordRight, lines) == Around(z, z.before, q)
    ensures z.after == blanks + w ==> Pressed(z, DeleteWordRight, lines) == Around(z, z.before, "")
  {
    hide AlnumPrefix, BlankPrefix;
    var b := |blanks|;
    if z.after == blanks + w + [c] + q {
      var rest := w + ([c] + q);
      assert z.after == blanks + rest && rest[0] == if w == "" then c else w[0];
      BlankStart(blanks, rest);
      assert z.after[b..] == rest;
      WordPrefix(w, [c] + q);
      assert z.after[b + |w| + 1..] == q;
    }
    if z.after == blanks + w {
      BlankStart(blanks, w);
      assert z.after[b..] == w && w + "" == w;
      WordPrefix(w, "");
    }
  }
}
