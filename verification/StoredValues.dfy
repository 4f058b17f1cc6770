/**
 What variables hold after the operations on them: texts assigned and read back, every name of
 "=", "++" and "--", characters stepped, elements of vectors, and declarations with the scopes
 and the constancy they give.
 */
module StoredValues {
  import opened FunctionScopes
  import opened GuardedStore
  import opened Results
  import opened VariableValues
  import opened Variables

  // ---- Texts ----

  predicate HoldsText(varType: string) {
    varType == "string" || varType == "std::string" || varType == "char" || varType == "std::char"
  }

  predicate HoldsOneChar(varType: string) {
    varType == "char" || varType == "std::char"
  }

  /** The text a variable of a text type holds; a char with nothing in it prints as a blank. */
  function ReadText(layer: Layer, varType: string, name: string): Option<string> {
    if varType == "std::char" then
      var cell := Get(layer, Chars, name); if cell.Char? then Some([cell.letter]) else None
    else if varType == "char" then
      var cell := Get(layer, Strings, name);
      if cell.Text? then Some(if cell.text == "" then " " else cell.text[..1]) else None
    else if varType == "string" || varType == "std::string" then
      var cell := Get(layer, Strings, name); if cell.Text? then Some(cell.text) else None
    else None
  }

  /**
   A text assigned reads back. A permitted assignment to a variable of a text type fails exactly
   when the type holds one character and the text is not one; otherwise the variable then reads
   as the text.
   */
  lemma AssignedTextReadsBackIff(num: Numbers, layers: seq<Layer>, name: string, value: string, l: nat)
    requires FindVar(layers, name) == Some(l) && l < |layers| && name in layers[l].typeOf
    requires Guard(layers, l, name) == None && HoldsText(layers[l].typeOf[name])
    ensures var varType, r := layers[l].typeOf[name], Assign(num, layers, name, value);
            if HoldsOneChar(varType) && |value| != 1 then r == Done(layers, Some(NotConvertible))
            else r.failure == None && ReadText(r.layers[l], varType, name) == Some(value)
  {
    hide FindVar, Guard, Write, Get;
    var varType := layers[l].typeOf[name];
    NotStdText(varType);
    assert |value| == 1 ==> [value[0]] == value == value[..1];
    var store := if varType == "std::char" then Chars else Strings;
    WriteIsRead(layers, l, store, name, if store == Chars && |value| == 1 then Char(value[0]) else Text(value));
  }

  lemma WriteIsRead(layers: seq<Layer>, l: nat, store: Store, name: string, cell: Cell)
    requires l < |layers|
    ensures Get(Write(layers, l, Slot(store, name), cell)[l], store, name) == cell
  {
  }

  lemma NotStdText(varType: string)
    ensures varType == "string" || varType == "char" ==> !(|varType| >= 5 && varType[..5] == "std::")
  {
    assert varType == "string" ==> varType[0] == 's' && varType[..5][4] == varType[4] == 'n';
  }

  /**
   An assignment to a variable of any other type changes nothing; it fails exactly when the type
   does not start with std::.
   */
  lemma OtherTypesAssignIff(num: Numbers, layers: seq<Layer>, name: string, value: string, l: nat)
    requires FindVar(layers, name) == Some(l) && l < |layers| && name in layers[l].typeOf
    requires Guard(layers, l, name) == None && !HoldsText(layers[l].typeOf[name]) && !IsNumeric(layers[l].typeOf[name])
    ensures var varType, r := layers[l].typeOf[name], Assign(num, layers, name, value);
            && r.layers == layers
            && (r.failure == None <==> |varType| >= 5 && varType[..5] == "std::")
            && (r.failure != None ==> r.failure == Some(NotConvertible))
  {
    hide FindVar, Guard, Write;
  }

  /** A number without its decimals. */
  predicate IsCut(x: real, r: real) {
    && r == r.Floor as real
    && (x >= 0.0 ==> 0.0 <= r <= x < r + 1.0)
    && (x <= 0.0 ==> r - 1.0 < x <= r <= 0.0)
  }

  /** Decimal text given to an integer is cut toward zero. */
  lemma DecimalIsCut(num: Numbers, layers: seq<Layer>, name: string, value: string, l: nat)
    requires FindVar(layers, name) == Some(l) && l < |layers| && name in layers[l].typeOf
    requires Guard(layers, l, name) == None && (layers[l].typeOf[name] == "int" || layers[l].typeOf[name] == "std::int")
    requires num.isDouble(value) && !num.isInt(value)
    ensures var x, r := num.strtod(value), Assign(num, layers, name, value);
            && r.failure == None
            && var read := ReadDouble(r.layers[l], layers[l].typeOf[name], name);
               read.Some? && IsCut(x, read.value)
  {
    var x := num.strtod(value);
    hide FindVar, Guard, ReadDouble, FromText, Assign;
    NumberAssignedIff(num, layers, name, value, l);
    AssignedNumberReadsBack(num, layers, name, value, l);
    assert ReadDouble(Assign(num, layers, name, value).layers[l], layers[l].typeOf[name], name) ==
             Some(Trunc(x) as real);
  }

  /** A variable that was given no value reads as zero, as false, or as an empty text. */
  lemma UnsetReadsZero(layer: Layer, varType: string, name: string)
    requires forall store :: Slot(store, name) !in layer.values
    ensures IsNumeric(varType) ==> ReadDouble(layer, varType, name) == Some(0.0)
    ensures varType == "string" || varType == "std::string" ==> ReadText(layer, varType, name) == Some("")
    ensures varType == "char" ==> ReadText(layer, varType, name) == Some(" ")
    ensures TextsOf(layer, name) == [] && DoublesOf(layer, name) == []
  {
  }

  /**
   Which failure an assignment reports: no variable, a constant, another scope's private, or a
   text that does not fit.
   */
  lemma AssignReportsIff(num: Numbers, layers: seq<Layer>, name: string, value: string)
    ensures var failure, found := Assign(num, layers, name, value).failure, FindVar(layers, name);
            && (failure == Some(NoVariable) <==> forall l | 0 <= l < |layers| :: name !in layers[l].typeOf)
            && (failure == Some(ConstantChange) <==> found.Some? && name in layers[found.value].constants)
            && (failure == Some(PrivateChange) <==>
                  && found.Some? && name !in layers[found.value].constants && name in layers[found.value].privates
                  && layers[|layers| - 1].scope !in InScopes(layers[found.value], name))
            && failure in {None, Some(NoVariable), Some(ConstantChange), Some(PrivateChange), Some(NotConvertible)}
  {
    var found := FindVar(layers, name);
    if found.Some? {
      ConversionReports(num, layers[found.value].typeOf[name], value);
    }
    hide FromText, FindVar, InScopes;
  }

  lemma ConversionReports(num: Numbers, varType: string, value: string)
    ensures FromText(num, varType, value).Err? ==> FromText(num, varType, value).error == NotConvertible
  {
  }

  /** A permitted assignment to a number fails exactly when the text is no number of its kind. */
  lemma NumberAssignedIff(num: Numbers, layers: seq<Layer>, name: string, value: string, l: nat)
    requires FindVar(layers, name) == Some(l) && l < |layers| && name in layers[l].typeOf
    requires Guard(layers, l, name) == None && IsNumeric(layers[l].typeOf[name])
    ensures var varType := layers[l].typeOf[name];
            Assign(num, layers, name, value).failure.None? <==>
              num.isDouble(value) || (num.isInt(value) && varType != "double" && varType != "std::double")
  {
    hide FindVar, Guard;
    NotStd(layers[l].typeOf[name]);
  }

  // ---- Every name in turn ----

  predicate HoldsString(varType: string) {
    varType == "string" || varType == "std::string"
  }

  lemma AssignOneString(num: Numbers, layers: seq<Layer>, name: string, value: string, other: string, l: nat)
    requires FindVar(layers, other) == Some(l) && l < |layers| && other in layers[l].typeOf
    requires HoldsString(layers[l].typeOf[other]) && Assign(num, layers, name, value).failure.None?
    ensures var after := Assign(num, layers, name, value).layers;
            && |after| == |layers| && FindVar(after, other) == Some(l) && after[l].typeOf == layers[l].typeOf
            && ReadText(after[l], layers[l].typeOf[other], other) ==
               if other == name then Some(value) else ReadText(layers[l], layers[l].typeOf[other], other)
  {
    hide FindVar, FromText, Assign, Guard, SameVar;
    var after := Assign(num, layers, name, value).layers;
    AssignIsGuarded(num, layers, name, value);
    GuardedTypes(layers, after, other, l);
    if other == name {
      PermittedAssign(num, layers, name, value, l);
      AssignedTextReadsBackIff(num, layers, name, value, l);
    } else {
      AssignTouchesName(num, layers, name, value, l, other);
      SameText(layers[l], after[l], layers[l].typeOf[other], other);
    }
  }

  lemma SameText(a: Layer, b: Layer, varType: string, name: string)
    requires SameVar(a, b, name)
    ensures ReadText(a, varType, name) == ReadText(b, varType, name)
  {
  }

  lemma PermittedAssign(num: Numbers, layers: seq<Layer>, name: string, value: string, l: nat)
    requires FindVar(layers, name) == Some(l) && l < |layers| && name in layers[l].typeOf
    requires Assign(num, layers, name, value).failure.None?
    ensures Guard(layers, l, name) == None
  {
    hide FindVar, FromText, Guard;
  }

  /** "=" sets every one of its names, and no other variable. */
  lemma {:induction false} EqualsSetsEach(num: Numbers, layers: seq<Layer>, names: seq<string>, value: string,
                                          other: string, l: nat)
    requires FindVar(layers, other) == Some(l) && l < |layers| && other in layers[l].typeOf
    requires HoldsString(layers[l].typeOf[other])
    requires |layers| > 0 && Performed(num, layers, Equals(names, value)).failure.None?
    ensures var after := Apply(num, layers, Equals(names, value));
            && l < |after|
            && ReadText(after[l], layers[l].typeOf[other], other) ==
               if other in names then Some(value) else ReadText(layers[l], layers[l].typeOf[other], other)
    decreases |names|
  {
    hide FindVar, Assign, ReadText, HoldsString;
    if names == [] {
    } else {
      var first := Assign(num, layers, names[0], value);
      AssignOneString(num, layers, names[0], value, other, l);
      EqualsSetsEach(num, first.layers, names[1..], value, other, l);
      assert names == [names[0]] + names[1..];
    }
  }

  /** "=" that fails has set the names before the first that cannot be set, and no more. */
  lemma {:induction false} EqualsStopsAtFailure(num: Numbers, layers: seq<Layer>, names: seq<string>, value: string)
    returns (k: nat)
    requires |layers| > 0 && Performed(num, layers, Equals(names, value)).failure.Some?
    ensures k < |names|
    ensures var before := Performed(num, layers, Equals(names[..k], value));
            && before.failure.None?
            && Apply(num, layers, Equals(names, value)) == before.layers
            && Assign(num, before.layers, names[k], value).failure.Some?
    decreases |names|
  {
    hide Assign;
    var first := Assign(num, layers, names[0], value);
    if first.failure.Some? {
      k := 0;
      AssignUnchanged(num, layers, names[0], value);
      assert names[..0] == [];
    } else {
      var n := EqualsStopsAtFailure(num, first.layers, names[1..], value);
      k := n + 1;
      assert names[..k] == [names[0]] + names[1..][..n] && names[..k][1..] == names[1..][..n];
    }
  }

  lemma AssignUnchanged(num: Numbers, layers: seq<Layer>, name: string, value: string)
    requires Assign(num, layers, name, value).failure.Some?
    ensures Assign(num, layers, name, value).layers == layers
  {
    FailedAssignChangesNothing(num, layers, name, value);
  }

  function Occurrences(names: seq<string>, name: string): nat {
    if names == [] then 0 else (if names[0] == name then 1 else 0) + Occurrences(names[1..], name)
  }

  predicate StepsAsNumber(varType: string) {
    IsNumeric(varType) && varType != "bool" && varType != "std::bool"
  }

  lemma IncrementOne(layers: seq<Layer>, name: string, step: int, other: string, l: nat)
    requires FindVar(layers, other) == Some(l) && l < |layers| && other in layers[l].typeOf
    requires StepsAsNumber(layers[l].typeOf[other]) && ReadDouble(layers[l], layers[l].typeOf[other], other).Some?
    requires Increment(layers, name, step).failure.None?
    ensures var after, varType := Increment(layers, name, step).layers, layers[l].typeOf[other];
            && |after| == |layers| && FindVar(after, other) == Some(l) && after[l].typeOf == layers[l].typeOf
            && ReadDouble(after[l], varType, other) ==
               Some(ReadDouble(layers[l], varType, other).value + if other == name then step as real else 0.0)
  {
    hide FindVar, Increment, ReadDouble, Guard, SameVar;
    var after := Increment(layers, name, step).layers;
    IncrementIsGuarded(layers, name, step);
    GuardedTypes(layers, after, other, l);
    if other == name {
      StepReads(layers, name, l, step);
    } else {
      IncrementTouchesName(layers, name, step, l, other);
      SameDouble(layers[l], after[l], layers[l].typeOf[other], other);
    }
  }

  lemma SameDouble(a: Layer, b: Layer, varType: string, name: string)
    requires SameVar(a, b, name)
    ensures ReadDouble(a, varType, name) == ReadDouble(b, varType, name)
  {
  }

  lemma IncrementTouchesName(layers: seq<Layer>, name: string, step: int, l: nat, other: string)
    requires l < |layers| && other != name
    ensures SameVar(layers[l], Increment(layers, name, step).layers[l], other)
  {
    hide FindVar, Stepped, Guard;
    var after := Increment(layers, name, step).layers;
    assert forall store: Store :: Slot(store, other) in after[l].values <==> Slot(store, other) in layers[l].values;
  }

  lemma {:induction false} IncrementEach(layers: seq<Layer>, names: seq<string>, step: int, other: string, l: nat)
    requires FindVar(layers, other) == Some(l) && l < |layers| && other in layers[l].typeOf
    requires StepsAsNumber(layers[l].typeOf[other]) && ReadDouble(layers[l], layers[l].typeOf[other], other).Some?
    requires IncrementAll(layers, names, step).failure.None?
    ensures var after, varType := IncrementAll(layers, names, step).layers, layers[l].typeOf[other];
            ReadDouble(after[l], varType, other) ==
              Some(ReadDouble(layers[l], varType, other).value + (step * Occurrences(names, other)) as real)
    decreases |names|
  {
    hide FindVar, Increment, ReadDouble, StepsAsNumber;
    if names == [] {
    } else {
      var first := Increment(layers, names[0], step);
      IncrementOne(layers, names[0], step, other, l);
      IncrementEach(first.layers, names[1..], step, other, l);
      var n := Occurrences(names[1..], other);
      assert step * (1 + n) == step + step * n;
    }
  }

  /** "++" adds one to each number named, once for each time it is named, and to no other. */
  lemma PlusPlusAddsOne(num: Numbers, layers: seq<Layer>, names: seq<string>, other: string, l: nat)
    requires FindVar(layers, other) == Some(l) && l < |layers| && other in layers[l].typeOf
    requires StepsAsNumber(layers[l].typeOf[other]) && ReadDouble(layers[l], layers[l].typeOf[other], other).Some?
    requires Performed(num, layers, PlusPlus(names)).failure.None?
    ensures var after, varType := Apply(num, layers, PlusPlus(names)), layers[l].typeOf[other];
            && l < |after|
            && ReadDouble(after[l], varType, other) ==
               Some(ReadDouble(layers[l], varType, other).value + Occurrences(names, other) as real)
  {
    hide FindVar, IncrementAll, ReadDouble, StepsAsNumber;
    IncrementEach(layers, names, 1, other, l);
  }

  /** "--" takes it off. */
  lemma MinusMinusTakesOne(num: Numbers, layers: seq<Layer>, names: seq<string>, other: string, l: nat)
    requires FindVar(layers, other) == Some(l) && l < |layers| && other in layers[l].typeOf
    requires StepsAsNumber(layers[l].typeOf[other]) && ReadDouble(layers[l], layers[l].typeOf[other], other).Some?
    requires Performed(num, layers, MinusMinus(names)).failure.None?
    ensures var after, varType := Apply(num, layers, MinusMinus(names)), layers[l].typeOf[other];
            && l < |after|
            && ReadDouble(after[l], varType, other) ==
               Some(ReadDouble(layers[l], varType, other).value - Occurrences(names, other) as real)
  {
    hide FindVar, IncrementAll, ReadDouble, StepsAsNumber;
    IncrementEach(layers, names, -1, other, l);
  }

  // ---- Characters ----

  /** The character code one further on, or one back, in a byte. */
  predicate IsNext(a: char, b: char) {
    if a as int % 256 == 255 then b as int == 0 else b as int == a as int % 256 + 1
  }

  lemma CharStepped(layers: seq<Layer>, name: string, l: nat, step: int)
    requires FindVar(layers, name) == Some(l) && l < |layers| && name in layers[l].typeOf
    requires Guard(layers, l, name) == None && HoldsOneChar(layers[l].typeOf[name])
    requires layers[l].typeOf[name] == "char" ==> Get(layers[l], Strings, name) != Text("")
    requires ReadText(layers[l], layers[l].typeOf[name], name).Some?
    ensures var varType, r := layers[l].typeOf[name], Increment(layers, name, step);
            && ReadText(layers[l], varType, name).value != ""
            && r.failure == None
            && ReadText(r.layers[l], varType, name) ==
                Some([NextChar(ReadText(layers[l], varType, name).value[0], step)])
  {
    hide FindVar, Guard, Write, Get, NextChar;
    var varType := layers[l].typeOf[name];
    NotStdText(varType);
    if varType == "std::char" {
      WriteIsRead(layers, l, Chars, name, Char(NextChar(Get(layers[l], Chars, name).letter, step)));
    } else {
      var text := Get(layers[l], Strings, name).text;
      var stepped := [NextChar(text[0], step)] + text[1..];
      assert stepped[..1] == [NextChar(text[0], step)];
      WriteIsRead(layers, l, Strings, name, Text(stepped));
    }
  }

  /** "++" puts the next character in place of a char that holds one, and "--" the one before. */
  lemma CharStepsByOne(layers: seq<Layer>, name: string, l: nat)
    requires FindVar(layers, name) == Some(l) && l < |layers| && name in layers[l].typeOf
    requires Guard(layers, l, name) == None && HoldsOneChar(layers[l].typeOf[name])
    requires layers[l].typeOf[name] == "char" ==> Get(layers[l], Strings, name) != Text("")
    requires var c := ReadText(layers[l], layers[l].typeOf[name], name);
             c.Some? && (c.value != "" ==> c.value[0] as int < 256)
    ensures var varType := layers[l].typeOf[name];
            var c := ReadText(layers[l], varType, name).value;
            var up, down := Increment(layers, name, 1), Increment(layers, name, -1);
            && c != "" && up.failure == None && down.failure == None
            && (exists d :: ReadText(up.layers[l], varType, name) == Some([d]) && IsNext(c[0], d))
            && (exists d :: ReadText(down.layers[l], varType, name) == Some([d]) && IsNext(d, c[0]))
  {
    hide FindVar, Guard, Increment, Get, ReadText, NextChar, IsNext;
    CharStepped(layers, name, l, 1);
    CharStepped(layers, name, l, -1);
    NextIsNext(ReadText(layers[l], layers[l].typeOf[name], name).value[0]);
  }

  lemma NextIsNext(c: char)
    requires c as int < 256
    ensures IsNext(c, NextChar(c, 1)) && IsNext(NextChar(c, -1), c)
  {
  }

  // ---- Vectors ----

  /** The second vector goes on from the first. */
  predicate Prolongs<T(==)>(v: seq<T>, v': seq<T>, more: nat) {
    |v'| == |v| + more && forall k | 0 <= k < |v| :: v'[k] == v[k]
  }

  /** The second vector has another element at a position and is otherwise the first. */
  predicate SetIn<T(==)>(v: seq<T>, v': seq<T>, i: int, x: T) {
    && 0 <= i < |v| == |v'| && v'[i] == x
    && forall k | 0 <= k < |v| && k != i :: v'[k] == v[k]
  }

  /** The second vector is the first without a range. */
  predicate Cut<T(==)>(v: seq<T>, v': seq<T>, from: int, until: int) {
    && 0 <= from <= until <= |v| && |v'| == |v| - (until - from)
    && (forall k | 0 <= k < from :: v'[k] == v[k])
    && (forall k | from <= k < |v'| :: v'[k] == v[k + (until - from)])
  }

  /** Both turn a bool over. */
  lemma BoolsTurnOver(layers: seq<Layer>, name: string, step: int, l: nat)
    requires FindVar(layers, name) == Some(l) && l < |layers| && name in layers[l].typeOf
    requires Guard(layers, l, name) == None && (layers[l].typeOf[name] == "bool"
               || layers[l].typeOf[name] == "std::bool")
    requires ReadDouble(layers[l], layers[l].typeOf[name], name).Some?
    ensures var varType, r := layers[l].typeOf[name], Increment(layers, name, step);
            && r.failure == None
            && ReadDouble(r.layers[l], varType, name) ==
               Some(if ReadDouble(layers[l], varType, name) == Some(0.0) then 1.0 else 0.0)
  {
    hide FindVar, Guard;
  }

  /** On a variable of any other type they do nothing, and fail exactly when the type does not start with std::. */
  lemma OtherTypesStepIff(layers: seq<Layer>, name: string, step: int, l: nat)
    requires FindVar(layers, name) == Some(l) && l < |layers| && name in layers[l].typeOf
    requires Guard(layers, l, name) == None && !IsNumeric(layers[l].typeOf[name])
               && !HoldsOneChar(layers[l].typeOf[name])
    ensures var varType, r := layers[l].typeOf[name], Increment(layers, name, step);
            && r.layers == layers
            && r.failure == if |varType| >= 5 && varType[..5] == "std::" then None else Some(NoOperator)
  {
    hide FindVar, Guard, Write;
  }

  /** What a vector update reports but for its own failures. */
  lemma VectorReportsIff(num: Numbers, layers: seq<Layer>, name: string, member: bool, update: VectorUpdate)
    ensures var r, found := UpdateVector(num, layers, name, member, update), FindVar(layers, name);
            && (r.failure == Some(NoVariable) <==> forall l | 0 <= l < |layers| :: name !in layers[l].typeOf)
            && (r.failure == Some(ConstantChange) <==> found.Some? && name in layers[found.value].constants)
            && (r.failure == Some(NoOperator) <==>
                  && found.Some? && name !in layers[found.value].constants
                  && layers[found.value].typeOf[name] !in {"std::vector<double>", "std::vector<string>"})
            && (r.failure in {Some(NoVariable), Some(ConstantChange), Some(NoOperator)} ==> r.layers == layers)
  {
    var found := FindVar(layers, name);
    if found.Some? {
      var layer, target := layers[found.value], Target(name, member);
      UpdatesReport(num, DoublesOf(layer, target), TextsOf(layer, target), |DoublesOf(layer, target)|, update);
    }
    hide FindVar, UpdateDoubles, UpdateTexts, Write;
  }

  lemma UpdatesReport(num: Numbers, doubles: seq<real>, texts: seq<string>, size: nat, update: VectorUpdate)
    ensures UpdateDoubles(num, doubles, update).1 in {None, Some(NotConvertible), Some(OutOfBounds), Some(Undefined)}
    ensures UpdateTexts(texts, size, update).1 in {None, Some(OutOfBounds), Some(Undefined)}
  {
    hide PushDoubles;
  }

  /** The vector an update means is the one named, but for the member functions of options and params. */
  predicate Means(name: string, member: bool, target: string) {
    target == if member && name in {"options", "params"} then "__" + name else name
  }

  /**
   A vector of strings after being pushed onto, set in or popped by a name that is no constant;
   erasing is elsewhere.
   */
  lemma TextsAfter(num: Numbers, layers: seq<Layer>, name: string, member: bool, target: string, update: VectorUpdate,
                   l: nat)
    requires Means(name, member, target) && FindVar(layers, name) == Some(l) && l < |layers| && name in layers[l].typeOf
    requires name !in layers[l].constants && layers[l].typeOf[name] == STRINGS
    ensures var r := UpdateVector(num, layers, name, member, update);
            TextsUpdated(TextsOf(layers[l], target), TextsOf(r.layers[l], target), update, r.failure)
  {
    assert target == Target(name, member);
    hide FindVar, Target, UpdateTexts, Write, TextsUpdated;
    var v, size := TextsOf(layers[l], target), |DoublesOf(layers[l], target)|;
    var updated := UpdateTexts(v, size, update);
    WriteIsRead(layers, l, StrVecs, target, TextList(updated.0));
    TextsUpdate(v, size, update);
  }

  ghost predicate TextsUpdated(v: seq<string>, v': seq<string>, update: VectorUpdate, failure: Option<Failure>) {
    && (update.PushBack? ==>
          && failure == None && Prolongs(v, v', |update.values|)
          && forall k | 0 <= k < |update.values| :: v'[|v| + k] == update.values[k])
    && (update.SetAt? ==>
          if 0 <= update.index < |v| then failure == None && SetIn(v, v', update.index, update.value)
          else failure == Some(OutOfBounds) && v' == v)
    && (update.PopBack? ==>
          if v == [] then failure == Some(Undefined) && v' == v
          else failure == None && Prolongs(v', v, 1))
  }

  lemma TextsUpdate(v: seq<string>, size: nat, update: VectorUpdate)
    ensures var (v', failure) := UpdateTexts(v, size, update); TextsUpdated(v, v', update, failure)
  {
  }

  /** How many of the texts are doubles before the first that is none. */
  function GoodCount(num: Numbers, values: seq<string>): (n: nat)
    ensures n <= |values| && (forall k | 0 <= k < n :: num.isDouble(values[k]))
    ensures n < |values| ==> !num.isDouble(values[n])
  {
    if values == [] || !num.isDouble(values[0]) then 0 else 1 + GoodCount(num, values[1..])
  }

  lemma {:induction false} PushedDoubles(num: Numbers, v: seq<real>, values: seq<string>)
    ensures var r, n := PushDoubles(num, v, values), GoodCount(num, values);
            && |r.0| == |v| + n && (r.1 <==> n < |values|)
            && (forall k | 0 <= k < |v| :: r.0[k] == v[k])
            && (forall k | 0 <= k < n :: r.0[|v| + k] == num.strtod(values[k]))
    decreases |values|
  {
    if values == [] || !num.isDouble(values[0]) {
    } else {
      PushedDoubles(num, v + [num.strtod(values[0])], values[1..]);
    }
  }

  /** A vector of doubles after an update by a name that is no constant. */
  lemma DoublesAfter(num: Numbers, layers: seq<Layer>, name: string, member: bool, target: string, update: VectorUpdate,
                     l: nat)
    requires Means(name, member, target) && FindVar(layers, name) == Some(l) && l < |layers| && name in layers[l].typeOf
    requires name !in layers[l].constants && layers[l].typeOf[name] == "std::vector<double>"
    ensures var r := UpdateVector(num, layers, name, member, update);
            DoublesUpdated(num, DoublesOf(layers[l], target), DoublesOf(r.layers[l], target), update, r.failure)
  {
    assert target == Target(name, member);
    hide FindVar, Target, UpdateDoubles, Write, DoublesUpdated;
    var v := DoublesOf(layers[l], target);
    WriteIsRead(layers, l, DoubVecs, target, DoubleList(UpdateDoubles(num, v, update).0));
    DoublesUpdate(num, v, update);
  }

  ghost predicate DoublesUpdated(num: Numbers, v: seq<real>, v': seq<real>, update: VectorUpdate,
                                 failure: Option<Failure>) {
    && (update.PushBack? ==>
          var n := GoodCount(num, update.values);
          && failure == (if n < |update.values| then Some(NotConvertible) else None) && Prolongs(v, v', n)
          && forall k | 0 <= k < n :: v'[|v| + k] == num.strtod(update.values[k]))
    && (update.SetAt? ==>
          if 0 <= update.index < |v| && num.isDouble(update.value) then
            failure == None && SetIn(v, v', update.index, num.strtod(update.value))
          else failure.Some? && v' == v)
    && (update.PopBack? ==>
          if v == [] then failure == Some(Undefined) && v' == v
          else failure == None && Prolongs(v', v, 1))
    && (update.Erase? ==>
          if update.from < |v| && RangeWithin(update.from, update.until, |v|) then
            failure == None && Cut(v, v', update.from, EraseEnd(update.from, update.until))
          else failure.Some? && v' == v)
  }

  lemma DoublesUpdate(num: Numbers, v: seq<real>, update: VectorUpdate)
    ensures var (v', failure) := UpdateDoubles(num, v, update); DoublesUpdated(num, v, v', update, failure)
  {
    if update.PushBack? {
      PushedDoubles(num, v, update.values);
      hide PushDoubles;
    }
  }

  // ---- Declarations ----

  /**
   A variable declared is there with its first value. When constant it can never be written;
   when private only under the scope it was declared in and those it was declared for.
   */
  lemma DeclaredIsGuardedIff(layers: seq<Layer>, l: nat, name: string, varType: string, first: Option<(Store, Cell)>,
                             constant: bool, scopes: Option<set<string>>)
    requires l < |layers| && name != "" && name !in layers[l].typeOf && name !in layers[l].inScopes
    requires name !in layers[l].constants && name !in layers[l].privates
    ensures var r := Declare(layers, l, name, varType, first, constant, scopes);
            var top, own := layers[|layers| - 1].scope, layers[l].scope + NameScope(name);
            && r.failure == None && name in r.layers[l].typeOf && r.layers[l].typeOf[name] == varType
            && (first.Some? ==> Get(r.layers[l], first.value.0, name) == first.value.1)
            && (Guard(r.layers, l, name) == None <==>
                  !constant && (scopes.Some? ==> top == own || top in scopes.value))
            && (forall other | other != name :: SameVar(layers[l], r.layers[l], other))
            && (forall k | 0 <= k < |layers| && k != l :: r.layers[k] == layers[k])
  {
  }

  /** Declaring a name twice in a layer fails and changes nothing, and so does declaring an empty one. */
  lemma RedeclaredIff(layers: seq<Layer>, l: nat, name: string, varType: string, first: Option<(Store, Cell)>,
                      constant: bool, scopes: Option<set<string>>)
    requires l < |layers|
    ensures var r := Declare(layers, l, name, varType, first, constant, scopes);
            && (r.failure.Some? <==> name == "" || name in layers[l].typeOf)
            && (r.failure.Some? ==> r.layers == layers)
  {
  }
}
