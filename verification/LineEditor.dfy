/**
 The key loop of getline in Getline.cpp, *nix branch: the fields it keeps, changed key by key
 as the source does, proved against a zipper of the text before and after the cursor.
 */
module LineEditor {
  import opened Results
  import opened Text

  /** Keys as decoded from their byte sequences. A tab inserts a completion, or two spaces when there is none. */
  datatype Key =
    | Typed(c: char)
    | Tab(completion: Option<string>)
    | LineHome
    | LineEnd
    | Left
    | Right
    | WordLeft
    | WordRight
    | KillToEnd
    | Backspace
    | DeleteWordLeft
    | DeleteWordRight
    | ArrowUp
    | ArrowDown
    | Bell

  /** std::isalnum in the C locale. */
  predicate IsAlnum(c: char) {
    'a' <= c <= 'z' || 'A' <= c <= 'Z' || '0' <= c <= '9'
  }

  // ---- The zipper ----

  /** The line as text before and after the cursor; which history line it came from; the unsent line. */
  datatype Zipper = Zipper(before: string, after: string, cLine: nat, backup: string)

  function AlnumSuffix(s: string): (n: nat)
    ensures n <= |s|
    ensures forall k | |s| - n <= k < |s| :: IsAlnum(s[k])
    ensures n < |s| ==> !IsAlnum(s[|s| - n - 1])
  {
    if s == "" || !IsAlnum(s[|s| - 1]) then 0 else AlnumSuffix(s[..|s| - 1]) + 1
  }

  function AlnumPrefix(s: string): (n: nat)
    ensures n <= |s|
    ensures forall k | 0 <= k < n :: IsAlnum(s[k])
    ensures n < |s| ==> !IsAlnum(s[n])
  {
    if s == "" || !IsAlnum(s[0]) then 0 else AlnumPrefix(s[1..]) + 1
  }

  function BlankSuffix(s: string): (n: nat)
    ensures n <= |s|
    ensures forall k | |s| - n <= k < |s| :: IsBlank(s[k])
    ensures n < |s| ==> !IsBlank(s[|s| - n - 1])
  {
    if s == "" || !IsBlank(s[|s| - 1]) then 0 else BlankSuffix(s[..|s| - 1]) + 1
  }

  function BlankPrefix(s: string): (n: nat)
    ensures n <= |s|
    ensures forall k | 0 <= k < n :: IsBlank(s[k])
    ensures n < |s| ==> !IsBlank(s[n])
  {
    if s == "" || !IsBlank(s[0]) then 0 else BlankPrefix(s[1..]) + 1
  }

  /** A word to the left: its letters and digits, and the character before them. */
  function WordLeftCount(before: string): (n: nat)
    ensures n <= |before|
  {
    var k := AlnumSuffix(before);
    if k < |before| then k + 1 else k
  }

  /** To the right: the next character whatever it is, and the letters and digits after it. */
  function WordRightCount(after: string): (n: nat)
    ensures n <= |after|
  {
    if after == "" then 0 else 1 + AlnumPrefix(after[1..])
  }

  /** Deleting left: blanks, one more character, and the letters and digits before that. */
  function DeleteLeftCount(before: string): (n: nat)
    ensures n <= |before|
  {
    var b := BlankSuffix(before);
    if b == |before| then b else b + 1 + AlnumSuffix(before[..|before| - b - 1])
  }

  /** Deleting right: blanks, a run of letters and digits, and one more character. */
  function DeleteRightCount(after: string): (n: nat)
    ensures n <= |after|
  {
    var b := BlankPrefix(after);
    var k := b + AlnumPrefix(after[b..]);
    if k < |after| then k + 1 else k
  }

  function MoveLeft(z: Zipper, n: nat): Zipper
    requires n <= |z.before|
  {
    var k := |z.before| - n;
    z.(before := z.before[..k], after := z.before[k..] + z.after)
  }

  function MoveRight(z: Zipper, n: nat): Zipper
    requires n <= |z.after|
  {
    z.(before := z.before + z.after[..n], after := z.after[n..])
  }

  /** What a key does to the zipper. */
  function Pressed(z: Zipper, key: Key, lines: seq<string>): (z': Zipper)
    requires z.cLine <= |lines|
    ensures z'.cLine <= |lines|
  {
    match key
    case Typed(c) => z.(before := z.before + [c])
    case Tab(completion) => z.(before := z.before + (if completion.Some? then completion.value else "  "))
    case LineHome => MoveLeft(z, |z.before|)
    case LineEnd => MoveRight(z, |z.after|)
    case Left => if z.before == "" then z else MoveLeft(z, 1)
    case Right => if z.after == "" then z else MoveRight(z, 1)
    case WordLeft => MoveLeft(z, WordLeftCount(z.before))
    case WordRight => MoveRight(z, WordRightCount(z.after))
    case KillToEnd => z.(after := "")
    case Backspace => if z.before == "" then z else z.(before := z.before[..|z.before| - 1])
    case DeleteWordLeft => z.(before := z.before[..|z.before| - DeleteLeftCount(z.before)])
    case DeleteWordRight => z.(after := z.after[DeleteRightCount(z.after)..])
    case ArrowUp =>
      if z.cLine == 0 then z
      else Zipper(lines[z.cLine - 1], "", z.cLine - 1, if z.cLine == |lines| then z.before + z.after else z.backup)
    case ArrowDown =>
      if z.cLine >= |lines| then z
      else Zipper(if z.cLine + 1 == |lines| then z.backup else lines[z.cLine + 1], "", z.cLine + 1, z.backup)
    case Bell => z
  }

  function AllPressed(z: Zipper, keys: seq<Key>, lines: seq<string>): (z': Zipper)
    requires z.cLine <= |lines|
    ensures z'.cLine <= |lines|
    decreases |keys|
  {
    if keys == [] then z else AllPressed(Pressed(z, keys[0], lines), keys[1..], lines)
  }

  // ---- The key loop ----

  class LineEditor {
    var str: string
    var linePos: nat
    var bLinePos: nat
    var cLine: nat
    var backupStr: string
    var inputLines: seq<string>

    predicate Valid()
      reads this
    {
      linePos + bLinePos == |str| && cLine <= |inputLines|
    }

    function View(): Zipper
      reads this
      requires Valid()
    {
      Zipper(str[..linePos], str[linePos..], cLine, backupStr)
    }

    constructor (history: seq<string>)
      ensures Valid() && str == "" && inputLines == history
    {
      str, linePos, bLinePos, cLine, backupStr, inputLines := "", 0, 0, |history|, "", history;
    }

    /** A new call of getline: the cursor is at the end of the string passed in. */
    method Begin(str: string)
      modifies this
      ensures Valid() && View() == Zipper(str, "", |inputLines|, "")
      ensures inputLines == old(inputLines)
    {
      this.str := str;
      cLine, backupStr := |inputLines|, "";
      bLinePos, linePos := 0, |str|;
    }

    /** Enter: the line goes to the history unless it repeats the last one. */
    method Enter(trackLines: bool) returns (line: string)
      requires Valid()
      modifies this`inputLines
      ensures Valid() && line == old(View()).before + old(View()).after
      ensures inputLines == if trackLines then Tracked(old(inputLines), line) else old(inputLines)
    {
      assert str[..linePos] + str[linePos..] == str;
      if trackLines {
        if |inputLines| == 0 || str != inputLines[|inputLines| - 1] {
          inputLines := inputLines + [str];
        }
      }
      line := str;
    }

    /** Puts text in at the cursor. */
    method InsertAtCursor(text: string)
      requires Valid()
      modifies this`str, this`linePos
      ensures Valid() && View() == old(View()).(before := old(View()).before + text)
    {
      str := str[..linePos] + text + str[linePos..];
      linePos := linePos + |text|;
    }

    method StepLeft()
      requires Valid() && linePos > 0
      modifies this`linePos, this`bLinePos
      ensures Valid() && linePos == old(linePos) - 1
      ensures View() == MoveLeft(old(View()), 1)
    {
      linePos := linePos - 1;
      bLinePos := bLinePos + 1;
    }

    method StepRight()
      requires Valid() && bLinePos > 0
      modifies this`linePos, this`bLinePos
      ensures Valid() && linePos == old(linePos) + 1
      ensures View() == MoveRight(old(View()), 1)
    {
      linePos := linePos + 1;
      bLinePos := bLinePos - 1;
    }

    method MoveWordLeft()
      requires Valid()
      modifies this`linePos, this`bLinePos
      ensures Valid() && View() == MoveLeft(old(View()), WordLeftCount(old(View()).before))
    {
      hide AlnumSuffix, WordLeftCount;
      ghost var before, after := str[..linePos], str[linePos..];
      if linePos > 0 {
        StepLeft();
      }
      while linePos > 0 && IsAlnum(str[linePos])
        invariant Valid() && linePos <= |before|
        invariant before != "" ==> linePos < |before| && forall k | linePos < k < |before| :: IsAlnum(before[k])
      {
        assert str[linePos] == before[linePos];
        StepLeft();
      }
      assert linePos > 0 ==> str[linePos] == before[linePos];
      WordLeftIs(before, |before| - linePos);
      SplitAt(str, |before|, linePos);
    }

    method MoveWordRight()
      requires Valid()
      modifies this`linePos, this`bLinePos
      ensures Valid() && View() == MoveRight(old(View()), WordRightCount(old(View()).after))
    {
      hide WordRightCount, MoveRight;
      ghost var start := linePos;
      if bLinePos > 0 {
        StepRight();
      }
      while bLinePos > 0 && IsAlnum(str[linePos])
        invariant Valid() && start <= linePos
        invariant start < |str| ==> start < linePos && forall k | start < k < linePos :: IsAlnum(str[k])
      {
        StepRight();
      }
      WordRightIs(str, start, linePos);
      MovedRight(old(View()), str, start, linePos);
    }

    /** Takes out the character before the cursor. */
    method EraseLeft()
      requires Valid() && linePos > 0
      modifies this`str, this`linePos
      ensures Valid() && linePos == old(linePos) - 1
      ensures View() == old(View()).(before := old(str)[..linePos])
    {
      str := str[..linePos - 1] + str[linePos..];
      linePos := linePos - 1;
    }

    /** Takes out the character at the cursor. */
    method EraseRight()
      requires Valid() && bLinePos > 0
      modifies this`str, this`bLinePos
      ensures Valid() && bLinePos == old(bLinePos) - 1
      ensures View() == old(View()).(after := old(View()).after[1..])
    {
      str := str[..linePos] + str[linePos + 1..];
      bLinePos := bLinePos - 1;
    }

    method EraseWordLeft()
      requires Valid()
      modifies this`str, this`linePos
      ensures Valid()
      ensures var before := old(View()).before;
              View() == old(View()).(before := before[..|before| - DeleteLeftCount(before)])
    {
      hide DeleteLeftCount, Erasing;
      ghost var before := str[..linePos];
      ErasingStart(before);
      var foundNonWhitespace := false;
      var again := true;
      while again
        invariant Valid() && linePos <= |before| && View() == old(View()).(before := before[..linePos])
        invariant Erasing(before, linePos, foundNonWhitespace)
        invariant again <==> !foundNonWhitespace || (linePos > 0 && IsAlnum(before[linePos - 1]))
        decreases linePos
      {
        if linePos > 0 {
          assert str[linePos - 1] == View().before[linePos - 1] == before[linePos - 1];
          ErasingStep(before, linePos, foundNonWhitespace);
          if str[linePos - 1] != ' ' && str[linePos - 1] != '\t' {
            foundNonWhitespace := true;
          }
          EraseLeft();
        } else {
          break;
        }
        assert linePos > 0 ==> str[linePos - 1] == View().before[linePos - 1] == before[linePos - 1];
        again := !foundNonWhitespace || (linePos > 0 && IsAlnum(str[linePos - 1]));
      }
      ErasedLeft(before, linePos, foundNonWhitespace);
    }

    method EraseWordRight()
      requires Valid()
      modifies this`str, this`bLinePos
      ensures Valid()
      ensures View() == old(View()).(after := old(View()).after[DeleteRightCount(old(View()).after)..])
    {
      hide DeleteRightCount, ErasingRight;
      ErasingRightStart(str[linePos..]);
      ghost var after, n := str[linePos..], 0;
      var foundNonWhitespace := false;
      var c := 'a';
      while !foundNonWhitespace || IsAlnum(c)
        invariant Valid() && n + bLinePos == |after| && View() == old(View()).(after := after[n..])
        invariant ErasingRight(after, n, foundNonWhitespace)
        invariant foundNonWhitespace ==> n > 0 && c == after[n - 1]
        decreases bLinePos
      {
        if bLinePos > 0 {
          assert str[linePos] == View().after[0] == after[n];
          ErasingRightStep(after, n, foundNonWhitespace);
          c := str[linePos];
          if c != ' ' && c != '\t' {
            foundNonWhitespace := true;
          }
          EraseRight();
          assert after[n..][1..] == after[n + 1..];
          n := n + 1;
        } else {
          break;
        }
      }
      ErasedRight(after, n, foundNonWhitespace);
    }

    /** One turn of the key loop. */
    method Press(key: Key)
      requires Valid()
      modifies this`str, this`linePos, this`bLinePos, this`cLine, this`backupStr
      ensures Valid() && View() == Pressed(old(View()), key, inputLines)
    {
      hide WordLeftCount, WordRightCount, DeleteLeftCount, DeleteRightCount, MoveLeft, MoveRight;
      match key {
        case Typed(c) => InsertAtCursor([c]);
        case Tab(completion) => Complete(completion);
        case LineHome => GoHome();
        case LineEnd => GoEnd();
        case Left =>
          if linePos > 0 {
            StepLeft();
          }
        case Right =>
          if bLinePos > 0 {
            StepRight();
          }
        case WordLeft => MoveWordLeft();
        case WordRight => MoveWordRight();
        case KillToEnd => CutToEnd();
        case Backspace => EraseOne();
        case DeleteWordLeft => EraseWordLeft();
        case DeleteWordRight => EraseWordRight();
        case ArrowUp => Up();
        case ArrowDown => Down();
        case Bell =>
      }
    }

    method Complete(completion: Option<string>)
      requires Valid()
      modifies this`str, this`linePos
      ensures Valid() && View() == Pressed(old(View()), Tab(completion), inputLines)
    {
      if completion.Some? {
        InsertAtCursor(completion.value);
      } else {
        InsertAtCursor(" ");
        InsertAtCursor(" ");
        assert old(View()).before + " " + " " == old(View()).before + "  ";
      }
    }

    method EraseOne()
      requires Valid()
      modifies this`str, this`linePos
      ensures Valid() && View() == Pressed(old(View()), Backspace, inputLines)
    {
      if linePos > 0 {
        ghost var before := View().before;
        EraseLeft();
        assert View().before == before[..|before| - 1];
      }
    }

    method GoHome()
      requires Valid()
      modifies this`linePos, this`bLinePos
      ensures Valid() && View() == MoveLeft(old(View()), |old(View()).before|)
    {
      bLinePos := |str|;
      linePos := 0;
    }

    method GoEnd()
      requires Valid()
      modifies this`linePos, this`bLinePos
      ensures Valid() && View() == MoveRight(old(View()), |old(View()).after|)
    {
      bLinePos := 0;
      linePos := |str|;
    }

    method CutToEnd()
      requires Valid()
      modifies this`str, this`bLinePos
      ensures Valid() && View() == old(View()).(after := "")
    {
      str := str[..linePos];
      bLinePos := 0;
    }

    method Up()
      requires Valid()
      modifies this`str, this`linePos, this`bLinePos, this`cLine, this`backupStr
      ensures Valid() && View() == Pressed(old(View()), ArrowUp, inputLines)
    {
      assert str[..linePos] + str[linePos..] == str;
      if cLine > 0 {
        if cLine == |inputLines| {
          backupStr := str;
        }
        cLine := cLine - 1;
        str := inputLines[cLine];
        bLinePos := 0;
        linePos := |str|;
      }
    }

    method Down()
      requires Valid()
      modifies this`str, this`linePos, this`bLinePos, this`cLine
      ensures Valid() && View() == Pressed(old(View()), ArrowDown, inputLines)
    {
      if cLine < |inputLines| {
        cLine := cLine + 1;
        str := if cLine == |inputLines| then backupStr else inputLines[cLine];
        bLinePos := 0;
        linePos := |str|;
      }
    }

    /** Every key sequence keeps the cursor in the line and refines the zipper. */
    method PressAll(keys: seq<Key>)
      requires Valid()
      modifies this`str, this`linePos, this`bLinePos, this`cLine, this`backupStr
      ensures Valid() && View() == AllPressed(old(View()), keys, inputLines)
    {
      var i := 0;
      while i < |keys|
        invariant i <= |keys| && Valid()
        invariant AllPressed(View(), keys[i..], inputLines) == AllPressed(old(View()), keys, inputLines)
      {
        assert keys[i..][1..] == keys[i + 1..];
        Press(keys[i]);
        i := i + 1;
      }
    }

    /** One call of getline: keys, then enter. Only the entered line reaches the history. */
    method Getline(str: string, keys: seq<Key>, trackLines: bool) returns (line: string)
      modifies this
      ensures Valid()
      ensures var z := AllPressed(Zipper(str, "", |old(inputLines)|, ""), keys, old(inputLines));
              && line == z.before + z.after
              && inputLines == if trackLines then Tracked(old(inputLines), line) else old(inputLines)
    {
      Begin(str);
      PressAll(keys);
      line := Enter(trackLines);
    }
  }

  // ---- What the word loops count ----

  lemma WordLeftIs(before: string, n: nat)
    requires n <= |before| && (before != "" ==> n > 0)
    requires forall k | |before| - n < k < |before| :: IsAlnum(before[k])
    requires n < |before| ==> !IsAlnum(before[|before| - n])
    ensures n == WordLeftCount(before)
  {
    hide AlnumSuffix;
  }

  lemma WordRightIs(str: string, start: nat, pos: nat)
    requires start <= pos <= |str| && (start < |str| ==> start < pos)
    requires forall k | start < k < pos :: IsAlnum(str[k])
    requires start < pos < |str| ==> !IsAlnum(str[pos])
    ensures pos - start == WordRightCount(str[start..])
  {
    hide AlnumPrefix;
    if start < |str| {
      var rest := str[start..][1..];
      var m := AlnumPrefix(rest);
      assert forall k | 0 <= k < |rest| :: rest[k] == str[start + 1 + k];
      assert pos < |str| ==> str[pos] == rest[pos - start - 1];
      assert m < |rest| ==> !IsAlnum(str[start + 1 + m]);
    }
  }

  lemma MovedRight(z: Zipper, str: string, start: nat, pos: nat)
    requires start <= pos <= |str| && z.before == str[..start] && z.after == str[start..]
    ensures MoveRight(z, pos - start) == z.(before := str[..pos], after := str[pos..])
  {
    assert str[start..][..pos - start] == str[start..pos];
    assert str[..start] + str[start..pos] == str[..pos];
    assert str[start..][pos - start..] == str[pos..];
  }

  /** Erased down to left: blanks, the character at that place, and letters and digits before it. */
  predicate LeftErasure(before: string, left: nat, at: nat)
    requires left <= |before|
  {
    && left <= at < |before| && !IsBlank(before[at])
    && (forall k | at < k < |before| :: IsBlank(before[k]))
    && (forall k | left <= k < at :: IsAlnum(before[k]))
  }

  /** While erasing left: so far only blanks, or blanks, one more character, and letters and digits. */
  ghost predicate Erasing(before: string, left: nat, found: bool)
    requires left <= |before|
  {
    if !found then forall k | left <= k < |before| :: IsBlank(before[k])
    else exists at :: LeftErasure(before, left, at)
  }

  lemma ErasingStart(before: string)
    ensures Erasing(before, |before|, false)
  {
  }

  lemma ErasingStep(before: string, left: nat, found: bool)
    requires 0 < left <= |before| && Erasing(before, left, found)
    requires found ==> IsAlnum(before[left - 1])
    ensures Erasing(before, left - 1, found || !IsBlank(before[left - 1]))
  {
    if found {
      var at :| LeftErasure(before, left, at);
      assert LeftErasure(before, left - 1, at);
    } else if !IsBlank(before[left - 1]) {
      assert LeftErasure(before, left - 1, left - 1);
    }
  }

  lemma ErasedLeft(before: string, left: nat, found: bool)
    requires left <= |before| && Erasing(before, left, found)
    requires if found then left == 0 || !IsAlnum(before[left - 1]) else left == 0
    ensures left == |before| - DeleteLeftCount(before)
  {
    hide AlnumSuffix, BlankSuffix;
    var b := BlankSuffix(before);
    if found {
      var at: nat :| LeftErasure(before, left, at);
      assert at == |before| - b - 1;
      var rest := before[..at];
      assert forall k | 0 <= k < |rest| :: rest[k] == before[k];
      assert AlnumSuffix(rest) == at - left;
    }
  }

  /** Erased n to the right: blanks up to the place, then letters and digits but possibly for the last. */
  predicate RightErasure(after: string, n: nat, at: nat)
    requires n <= |after|
  {
    && at < n && !IsBlank(after[at])
    && (forall k | 0 <= k < at :: IsBlank(after[k]))
    && (forall k | at <= k < n - 1 :: IsAlnum(after[k]))
  }

  /** While erasing right: so far only blanks, or blanks and then letters and digits, possibly but for the last. */
  ghost predicate ErasingRight(after: string, n: nat, found: bool)
    requires n <= |after|
  {
    if !found then forall k | 0 <= k < n :: IsBlank(after[k])
    else exists at :: RightErasure(after, n, at)
  }

  lemma ErasingRightStart(after: string)
    ensures ErasingRight(after, 0, false)
  {
  }

  lemma ErasingRightStep(after: string, n: nat, found: bool)
    requires n < |after| && ErasingRight(after, n, found)
    requires found ==> n > 0 && IsAlnum(after[n - 1])
    ensures ErasingRight(after, n + 1, found || !IsBlank(after[n]))
  {
    if found {
      var at :| RightErasure(after, n, at);
      assert RightErasure(after, n + 1, at);
    } else if !IsBlank(after[n]) {
      assert RightErasure(after, n + 1, n);
    }
  }

  lemma ErasedRight(after: string, n: nat, found: bool)
    requires n <= |after| && ErasingRight(after, n, found)
    requires n == |after| || (found && !IsAlnum(after[n - 1]))
    ensures n == DeleteRightCount(after)
  {
    hide AlnumPrefix, BlankPrefix;
    var b := BlankPrefix(after);
    if found {
      var at :| RightErasure(after, n, at);
      assert at == b;
      var rest := after[b..];
      assert forall k | 0 <= k < |rest| :: rest[k] == after[b + k];
      var m := AlnumPrefix(rest);
      assert m < |rest| ==> !IsAlnum(after[b + m]);
      assert rest[n - 1 - b] == after[n - 1];
      assert m >= n - 1 - b;
    }
  }

  // ---- History ----

  function Tracked(lines: seq<string>, line: string): seq<string> {
    if lines == [] || line != lines[|lines| - 1] then lines + [line] else lines
  }

  predicate NoRepeats(lines: seq<string>) {
    forall i | 0 < i < |lines| :: lines[i - 1] != lines[i]
  }

  /** The history after several calls of getline, given what each returned. */
  function History(lines: seq<string>, entered: seq<string>): seq<string>
    decreases |entered|
  {
    if entered == [] then lines else History(Tracked(lines, entered[0]), entered[1..])
  }

  /**
   Tracked history never gains two equal neighbours, never changes what it holds, and its last
   line is the last one entered.
   */
  lemma {:induction false} HistoryGrows(lines: seq<string>, entered: seq<string>)
    requires NoRepeats(lines)
    ensures var h := History(lines, entered);
            && NoRepeats(h) && lines <= h
            && (entered != [] ==> h != [] && h[|h| - 1] == entered[|entered| - 1])
    decreases |entered|
  {
    if entered == [] {
    } else {
      HistoryGrows(Tracked(lines, entered[0]), entered[1..]);
    }
  }

  function Times(key: Key, n: nat): (keys: seq<Key>)
    ensures |keys| == n && forall i | 0 <= i < n :: keys[i] == key
  {
    seq(n, _ => key)
  }

  /** Going up from an unsent or history line. */
  lemma {:induction false} Ups(z: Zipper, n: nat, lines: seq<string>)
    requires z.cLine <= |lines|
    ensures AllPressed(z, Times(ArrowUp, n), lines) ==
            if n == 0 || z.cLine == 0 then z
            else
              var c := if n <= z.cLine then z.cLine - n else 0;
              Zipper(lines[c], "", c, if z.cLine == |lines| then z.before + z.after else z.backup)
    decreases n
  {
    if n == 0 {
    } else {
      assert Times(ArrowUp, n)[1..] == Times(ArrowUp, n - 1);
      Ups(Pressed(z, ArrowUp, lines), n - 1, lines);
    }
  }

  lemma {:induction false} Downs(z: Zipper, n: nat, lines: seq<string>)
    requires z.cLine <= |lines|
    ensures AllPressed(z, Times(ArrowDown, n), lines) ==
            if n == 0 || z.cLine == |lines| then z
            else
              var c := if z.cLine + n <= |lines| then z.cLine + n else |lines|;
              Zipper(if c == |lines| then z.backup else lines[c], "", c, z.backup)
    decreases n
  {
    if n == 0 {
    } else {
      assert Times(ArrowDown, n)[1..] == Times(ArrowDown, n - 1);
      Downs(Pressed(z, ArrowDown, lines), n - 1, lines);
    }
  }

  lemma {:induction false} PressedInTurn(z: Zipper, first: seq<Key>, second: seq<Key>, lines: seq<string>)
    requires z.cLine <= |lines|
    ensures AllPressed(z, first + second, lines) == AllPressed(AllPressed(z, first, lines), second, lines)
    decreases |first|
  {
    if first == [] {
      assert first + second == second;
    } else {
      assert (first + second)[1..] == first[1..] + second;
      PressedInTurn(Pressed(z, first[0], lines), first[1..], second, lines);
    }
  }

  /**
   As many downs as ups, without edits between. From the unsent line they always bring it
   back, with the cursor at its end if there is any history. From a history line they bring
   back that line as the history has it, so a change made to it is lost; and further ups than
   there are lines above land as many lines too far down.
   */
  lemma UpsThenDowns(z: Zipper, n: nat, lines: seq<string>)
    requires z.cLine <= |lines|
    ensures var z' := AllPressed(z, Times(ArrowUp, n) + Times(ArrowDown, n), lines);
            && (n > 0 && lines != [] && z.cLine == |lines| ==>
                z' == Zipper(z.before + z.after, "", |lines|, z.before + z.after))
            && (n > 0 && 0 < z.cLine < |lines| ==>
                  var c := if n <= z.cLine then z.cLine else if n <= |lines| then n else |lines|;
                  z' == Zipper(if c == |lines| then z.backup else lines[c], "", c, z.backup))
            && (n == 0 || lines == [] ==> z' == z)
  {
    hide AllPressed;
    PressedInTurn(z, Times(ArrowUp, n), Times(ArrowDown, n), lines);
    Ups(z, n, lines);
    Downs(AllPressed(z, Times(ArrowUp, n), lines), n, lines);
  }

  /** A line cut further left. */
  lemma SplitAt(str: string, cut: nat, k: nat)
    requires k <= cut <= |str|
    ensures str[..cut][..k] == str[..k] && str[k..] == str[..cut][k..] + str[cut..]
  {
  }

  // ---- Moves and edits on the zipper ----

  predicate IsMove(key: Key) {
    key.LineHome? || key.LineEnd? || key.Left? || key.Right? || key.WordLeft? || key.WordRight? || key.Bell?
  }

  /** Moves never change the text, whatever their order. */
  lemma {:induction false} MovesKeepText(z: Zipper, keys: seq<Key>, lines: seq<string>)
    requires z.cLine <= |lines| && forall i | 0 <= i < |keys| :: IsMove(keys[i])
    ensures var z' := AllPressed(z, keys, lines);
            z'.before + z'.after == z.before + z.after && z'.cLine == z.cLine && z'.backup == z.backup
    decreases |keys|
  {
    if keys == [] {
    } else {
      MoveKeepsText(z, keys[0], lines);
      MovesKeepText(Pressed(z, keys[0], lines), keys[1..], lines);
      hide Pressed;
    }
  }

  lemma MoveKeepsText(z: Zipper, key: Key, lines: seq<string>)
    requires z.cLine <= |lines| && IsMove(key)
    ensures var z' := Pressed(z, key, lines);
            z'.before + z'.after == z.before + z.after && z'.cLine == z.cLine && z'.backup == z.backup
  {
    hide WordLeftCount, WordRightCount;
    match key
    case LineHome => MoveLeftKeeps(z, |z.before|);
    case Left => MoveLeftKeeps(z, if z.before == "" then 0 else 1);
    case WordLeft => MoveLeftKeeps(z, WordLeftCount(z.before));
    case LineEnd => MoveRightKeeps(z, |z.after|);
    case Right => MoveRightKeeps(z, if z.after == "" then 0 else 1);
    case WordRight => MoveRightKeeps(z, WordRightCount(z.after));
    case Bell =>
  }

  lemma MoveLeftKeeps(z: Zipper, n: nat)
    requires n <= |z.before|
    ensures MoveLeft(z, n).before + MoveLeft(z, n).after == z.before + z.after
  {
    var k := |z.before| - n;
    assert z.before[..k] + (z.before[k..] + z.after) == z.before + z.after;
  }

  lemma MoveRightKeeps(z: Zipper, n: nat)
    requires n <= |z.after|
    ensures MoveRight(z, n).before + MoveRight(z, n).after == z.before + z.after
  {
    assert (z.before + z.after[..n]) + z.after[n..] == z.before + z.after;
  }

  lemma {:induction false} WordLeftsReachStart(z: Zipper, n: nat, lines: seq<string>)
    requires z.cLine <= |lines| && |z.before| <= n
    ensures AllPressed(z, Times(WordLeft, n), lines) == Pressed(z, LineHome, lines)
    decreases n
  {
    if n > 0 {
      assert Times(WordLeft, n)[1..] == Times(WordLeft, n - 1);
      WordLeftsStep(z, lines);
      WordLeftsReachStart(Pressed(z, WordLeft, lines), n - 1, lines);
      hide Pressed;
    } else {
      assert z.before[0..] + z.after == z.after;
    }
  }

  lemma WordLeftsStep(z: Zipper, lines: seq<string>)
    requires z.cLine <= |lines|
    ensures var z' := Pressed(z, WordLeft, lines);
            && |z'.before| <= |z.before| && (z.before != "" ==> |z'.before| < |z.before|)
            && Pressed(z', LineHome, lines) == Pressed(z, LineHome, lines)
  {
    hide AlnumSuffix;
    var n := |z.before| - WordLeftCount(z.before);
    assert z.before[..n] + (z.before[n..] + z.after) == z.before + z.after;
    assert z.before[0..] == z.before && z.before[..n][0..] == z.before[..n];
  }

  /** The keys that type a text. */
  function Typing(text: string): (keys: seq<Key>)
    ensures |keys| == |text| && forall i | 0 <= i < |text| :: keys[i] == Typed(text[i])
  {
    seq(|text|, i requires 0 <= i < |text| => Typed(text[i]))
  }

  /** Typed characters go in at the cursor, in their order. */
  lemma {:induction false} TypingInserts(z: Zipper, text: string, lines: seq<string>)
    requires z.cLine <= |lines|
    ensures AllPressed(z, Typing(text), lines) == z.(before := z.before + text)
    decreases |text|
  {
    if text == "" {
      assert z.before + text == z.before;
    } else {
      assert Typing(text)[1..] == Typing(text[1..]);
      TypingInserts(z.(before := z.before + [text[0]]), text[1..], lines);
      assert z.before + [text[0]] + text[1..] == z.before + text;
    }
  }

  lemma {:induction false} BackspacesErase(z: Zipper, text: string, lines: seq<string>)
    requires z.cLine <= |lines|
    ensures AllPressed(z.(before := z.before + text), Times(Backspace, |text|), lines) == z
    decreases |text|
  {
    if text == "" {
      assert z.before + text == z.before;
    } else {
      var n := |text| - 1;
      assert Times(Backspace, |text|)[1..] == Times(Backspace, n);
      assert (z.before + text)[..|z.before + text| - 1] == z.before + text[..n];
      BackspacesErase(z, text[..n], lines);
    }
  }

  /** Typing a text and erasing as many characters leaves the line as it was, wherever the cursor stands. */
  lemma TypedThenErased(z: Zipper, text: string, lines: seq<string>)
    requires z.cLine <= |lines|
    ensures AllPressed(z, Typing(text) + Times(Backspace, |text|), lines) == z
  {
    hide AllPressed, Typing, Times;
    PressedInTurn(z, Typing(text), Times(Backspace, |text|), lines);
    TypingInserts(z, text, lines);
    BackspacesErase(z, text, lines);
  }
}
