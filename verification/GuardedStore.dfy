/**
 What the checks on writes come to over whole runs of the operations on variables: a permitted
 write reaches only the innermost variable of the name, privates change only under their
 scopes, and constants keep their values while their layer lives. Vector updates make an
 exception: they check the name they are made by for constancy and nothing else, so privates,
 and constants that stand in for params and options, are not safe from them.
 */
module GuardedStore {
  import opened Results
  import opened Variables

  /** The variable of a name is the same in two layers, in every store. */
  ghost predicate SameVar(a: Layer, b: Layer, name: string) {
    && (name in a.typeOf <==> name in b.typeOf) && (name in a.typeOf ==> a.typeOf[name] == b.typeOf[name])
    && forall store: Store :: Get(a, store, name) == Get(b, store, name)
  }

  predicate SameFlags(a: Layer, b: Layer) {
    a.scope == b.scope && a.constants == b.constants && a.privates == b.privates && a.inScopes == b.inScopes
        && a.typeOf == b.typeOf
  }

  /** Only variables the checks permit have changed, and of those only the innermost of their name. */
  ghost predicate Guarded(before: seq<Layer>, after: seq<Layer>) {
    && |before| == |after|
    && (forall l | 0 <= l < |before| :: SameFlags(before[l], after[l]))
    && (forall l, name | 0 <= l < |before| && !SameVar(before[l], after[l], name) ::
          Guard(before, l, name) == None && FindVar(before, name) == Some(l))
  }

  lemma GuardedAt(before: seq<Layer>, after: seq<Layer>, l: nat, name: string)
    requires Guarded(before, after) && l < |before|
    ensures SameFlags(before[l], after[l])
    ensures !SameVar(before[l], after[l], name) ==> Guard(before, l, name) == None && FindVar(before, name) == Some(l)
  {
    hide FindVar, SameVar;
  }

  lemma GuardedSame(layers: seq<Layer>)
    ensures Guarded(layers, layers)
  {
  }

  lemma {:induction false} FindBySame(a: seq<Layer>, b: seq<Layer>, name: string)
    requires |a| == |b| && forall l | 0 <= l < |a| :: a[l].typeOf == b[l].typeOf
    ensures FindVar(a, name) == FindVar(b, name)
  {
    hide FindVar;
    var x, y := FindVar(a, name), FindVar(b, name);
    if x.Some? && y.Some? {
      assert !(x.value < y.value) && !(y.value < x.value);
    }
  }

  lemma GuardedThen(before: seq<Layer>, middle: seq<Layer>, after: seq<Layer>)
    requires Guarded(before, middle) && Guarded(middle, after)
    ensures Guarded(before, after)
  {
    hide FindVar, SameVar;
    forall l | 0 <= l < |before|
      ensures SameFlags(before[l], after[l])
    {
      assert SameFlags(before[l], middle[l]) && SameFlags(middle[l], after[l]);
    }
    forall l, name | 0 <= l < |before| && !SameVar(before[l], after[l], name)
      ensures Guard(before, l, name) == None && FindVar(before, name) == Some(l)
    {
      if SameVar(before[l], middle[l], name) {
        SameVarThen(before[l], middle[l], after[l], name);
        FindBySame(before, middle, name) by {
          assert forall k | 0 <= k < |before| :: SameFlags(before[k], middle[k]);
        }
        assert Guard(middle, l, name) == None;
        assert SameFlags(before[l], middle[l]) && SameFlags(before[|before| - 1], middle[|before| - 1]);
      }
    }
  }

  lemma SameVarThen(a: Layer, b: Layer, c: Layer, name: string)
    requires SameVar(a, b, name)
    ensures SameVar(b, c, name) ==> SameVar(a, c, name)
  {
  }

  lemma WriteIsGuarded(layers: seq<Layer>, l: nat, store: Store, name: string, cell: Cell)
    requires l < |layers| && FindVar(layers, name) == Some(l) && Guard(layers, l, name) == None
    ensures Guarded(layers, Write(layers, l, Slot(store, name), cell))
  {
    hide FindVar;
    var after := Write(layers, l, Slot(store, name), cell);
    forall k, other | 0 <= k < |layers| && !SameVar(layers[k], after[k], other)
      ensures k == l && other == name
    {
      var s: Store :| Get(layers[k], s, other) != Get(after[k], s, other);
      assert k == l;
      assert Slot(s, other) == Slot(store, name);
    }
  }

  lemma AssignIsGuarded(num: Numbers, layers: seq<Layer>, name: string, value: string)
    ensures Guarded(layers, Assign(num, layers, name, value).layers)
  {
    hide FromText, Guarded;
    GuardedSame(layers);
    match FindVar(layers, name)
    case None =>
    case Some(l) =>
      if Guard(layers, l, name) == None {
        match FromText(num, layers[l].typeOf[name], value)
        case Ok(Some((store, cell))) => WriteIsGuarded(layers, l, store, name, cell);
        case _ =>
      }
  }

  lemma IncrementIsGuarded(layers: seq<Layer>, name: string, step: int)
    ensures Guarded(layers, Increment(layers, name, step).layers)
  {
    hide Stepped, Guarded;
    GuardedSame(layers);
    match FindVar(layers, name)
    case None =>
    case Some(l) =>
      if Guard(layers, l, name) == None {
        match Stepped(layers[l], layers[l].typeOf[name], name, step)
        case Ok(Some((store, cell))) => WriteIsGuarded(layers, l, store, name, cell);
        case _ =>
      }
  }

  lemma {:induction false} AssignAllIsGuarded(num: Numbers, layers: seq<Layer>, names: seq<string>, value: string)
    ensures Guarded(layers, AssignAll(num, layers, names, value).layers)
    decreases |names|
  {
    hide Assign, Guarded;
    if names == [] {
      GuardedSame(layers);
    } else {
      var first := Assign(num, layers, names[0], value);
      AssignIsGuarded(num, layers, names[0], value);
      AssignAllIsGuarded(num, first.layers, names[1..], value);
      GuardedThen(layers, first.layers, AssignAll(num, first.layers, names[1..], value).layers);
    }
  }

  lemma {:induction false} IncrementAllIsGuarded(layers: seq<Layer>, names: seq<string>, step: int)
    ensures Guarded(layers, IncrementAll(layers, names, step).layers)
    decreases |names|
  {
    hide Increment, Guarded;
    if names == [] {
      GuardedSame(layers);
    } else {
      var first := Increment(layers, names[0], step);
      IncrementIsGuarded(layers, names[0], step);
      IncrementAllIsGuarded(first.layers, names[1..], step);
      GuardedThen(layers, first.layers, IncrementAll(first.layers, names[1..], step).layers);
    }
  }

  predicate IsGuardedOp(op: Op) {
    op.Equals? || op.ArithEquals? || op.PlusPlus? || op.MinusMinus?
  }

  /** Assignments and increments change only permitted variables, the innermost of their names. */
  lemma GuardedOps(num: Numbers, layers: seq<Layer>, op: Op)
    requires Enabled(layers, op) && IsGuardedOp(op)
    ensures Guarded(layers, Apply(num, layers, op))
  {
    hide Guarded;
    match op
    case Equals(names, value) => AssignAllIsGuarded(num, layers, names, value);
    case ArithEquals(name, result) => AssignIsGuarded(num, layers, name, result);
    case PlusPlus(names) => IncrementAllIsGuarded(layers, names, 1);
    case MinusMinus(names) => IncrementAllIsGuarded(layers, names, -1);
  }

  // ---- Vector updates ----

  /**
   A vector update changes at most the vector meant, in the layer where the name is found, and
   that name is no constant.
   */
  lemma VectorChangesOnly(num: Numbers, layers: seq<Layer>, name: string, member: bool, update: VectorUpdate)
    ensures var after := UpdateVector(num, layers, name, member, update).layers;
            && (forall l | 0 <= l < |layers| :: SameFlags(layers[l], after[l]))
            && forall l, other | 0 <= l < |layers| && !SameVar(layers[l], after[l], other) ::
                 other == Target(name, member) && FindVar(layers, name) == Some(l) && name !in layers[l].constants
  {
    hide FindVar, UpdateDoubles, UpdateTexts, Target;
    var after := UpdateVector(num, layers, name, member, update).layers;
    if FindVar(layers, name).Some? {
      FoundDeclares(layers, name);
      forall k, other | 0 <= k < |layers| && !SameVar(layers[k], after[k], other)
        ensures other == Target(name, member) && FindVar(layers, name) == Some(k) && name !in layers[k].constants
      {
        var s: Store :| Get(layers[k], s, other) != Get(after[k], s, other);
        assert Slot(s, other) == Slot(DoubVecs, Target(name, member))
                 || Slot(s, other) == Slot(StrVecs, Target(name, member));
      }
    }
  }

  /**
   Whether an update of a variable of this type changes the vector it is meant for; a caller
   can tell from the vectors of that name and the arguments.
   */
  predicate Takes(num: Numbers, layer: Layer, varType: string, target: string, update: VectorUpdate) {
    var doubles, texts := DoublesOf(layer, target), TextsOf(layer, target);
    if varType == "std::vector<double>" then
      match update
      case PushBack(values) => values != [] && num.isDouble(values[0])
      case SetAt(i, value) => 0 <= i < |doubles| && num.isDouble(value) && num.strtod(value) != doubles[i]
      case PopBack => doubles != []
      case Erase(i, until) => 0 <= i < |doubles| && (until.Some? ==> i < until.value <= |doubles|)
    else if varType == STRINGS then
      match update
      case PushBack(values) => values != []
      case SetAt(i, value) => 0 <= i < |texts| && value != texts[i]
      case PopBack => texts != []
      case Erase(i, until) =>
        0 <= i < |doubles| &&
        (if until.Some? then i < until.value <= |doubles| && until.value <= |texts| else i < |texts|)
    else false
  }

  lemma {:induction false} PushDoublesGrows(num: Numbers, v: seq<real>, values: seq<string>)
    ensures |PushDoubles(num, v, values).0| >= |v|
    ensures PushDoubles(num, v, values).0 != v <==> values != [] && num.isDouble(values[0])
    decreases |values|
  {
    if values == [] || !num.isDouble(values[0]) {
    } else {
      PushDoublesGrows(num, v + [num.strtod(values[0])], values[1..]);
    }
  }

  lemma DoublesChangeIff(num: Numbers, layer: Layer, name: string, update: VectorUpdate)
    ensures UpdateDoubles(num, DoublesOf(layer, name), update).0 != DoublesOf(layer, name) <==>
              Takes(num, layer, "std::vector<double>", name, update)
  {
    hide PushDoubles, DoublesOf;
    var v := DoublesOf(layer, name);
    match update
    case PushBack(values) => PushDoublesGrows(num, v, values);
    case SetAt(i, value) =>
      if 0 <= i < |v| {
        assert v[i := num.strtod(value)][i] == num.strtod(value);
        assert num.strtod(value) == v[i] ==> v[i := num.strtod(value)] == v;
      }
    case PopBack =>
    case Erase(i, until) =>
      if 0 <= i < |v| {
        var j := if until.Some? then until.value else i + 1;
        if i <= j <= |v| {
          assert |v[..i] + v[j..]| == |v| - (j - i);
          assert j == i ==> v[..i] + v[j..] == v;
        }
      }
  }

  lemma TextsChangeIff(num: Numbers, layer: Layer, name: string, update: VectorUpdate)
    ensures UpdateTexts(TextsOf(layer, name), |DoublesOf(layer, name)|, update).0 != TextsOf(layer, name) <==>
              Takes(num, layer, STRINGS, name, update)
  {
    hide DoublesOf, TextsOf;
    var v, size := TextsOf(layer, name), |DoublesOf(layer, name)|;
    match update
    case PushBack(values) => assert values == [] ==> v + values == v; assert |v + values| == |v| + |values|;
    case SetAt(i, value) =>
      if 0 <= i < |v| {
        assert v[i := value][i] == value;
        assert value == v[i] ==> v[i := value] == v;
      }
    case PopBack =>
    case Erase(i, until) =>
      if 0 <= i < size {
        var j := if until.Some? then until.value else i + 1;
        if i <= j <= size && j <= |v| {
          assert |v[..i] + v[j..]| == |v| - (j - i);
          assert j == i ==> v[..i] + v[j..] == v;
        }
      }
  }

  /**
   What a vector update changes: the vector it is meant for, in the layer where the name is
   found, exactly when that name is no constant and there is something to change. Neither the
   privates nor, when another name stands for the vector, its own constancy are looked at.
   */
  lemma VectorChangesIff(num: Numbers, layers: seq<Layer>, name: string, member: bool, update: VectorUpdate, l: nat,
                         other: string)
    requires l < |layers| && WellTyped(layers[l])
    ensures !SameVar(layers[l], UpdateVector(num, layers, name, member, update).layers[l], other) <==>
              && other == Target(name, member) && FindVar(layers, name) == Some(l)
              && name in layers[l].typeOf && name !in layers[l].constants
              && Takes(num, layers[l], layers[l].typeOf[name], other, update)
  {
    hide FindVar, UpdateDoubles, UpdateTexts, Takes, SameVar, Write, Target, DoublesOf, TextsOf;
    VectorChangesOnly(num, layers, name, member, update);
    SameVarItself(layers[l], other);
    FoundDeclares(layers, name);
    if FindVar(layers, name) == Some(l) && name !in layers[l].constants && other == Target(name, member) {
      TargetChangesIff(num, layers, name, member, update, l);
    } else if FindVar(layers, name) == Some(l) && name in layers[l].constants {
      assert UpdateVector(num, layers, name, member, update).layers == layers;
    }
  }

  lemma TargetChangesIff(num: Numbers, layers: seq<Layer>, name: string, member: bool, update: VectorUpdate, l: nat)
    requires l < |layers| && WellTyped(layers[l]) && FindVar(layers, name) == Some(l)
    requires name in layers[l].typeOf && name !in layers[l].constants
    ensures var target := Target(name, member);
            !SameVar(layers[l], UpdateVector(num, layers, name, member, update).layers[l], target) <==>
              Takes(num, layers[l], layers[l].typeOf[name], target, update)
  {
    hide FindVar, UpdateDoubles, UpdateTexts, Takes, SameVar, Write, Target;
    var before, target := layers[l], Target(name, member);
    if before.typeOf[name] == "std::vector<double>" {
      DoublesChangeIff(num, before, target, update);
      WriteChangesIff(layers, l, DoubVecs, target, DoubleList(UpdateDoubles(num, DoublesOf(before, target), update).0));
    } else if before.typeOf[name] == STRINGS {
      TextsChangeIff(num, before, target, update);
      WriteChangesIff(layers, l, StrVecs, target,
          TextList(UpdateTexts(TextsOf(before, target), |DoublesOf(before, target)|, update).0));
    } else {
      NeverTakes(num, before, before.typeOf[name], target, update);
      SameVarItself(before, target);
    }
  }

  /**
   Vector updates ignore privates. An update leaves a variable the checks forbid alone exactly
   when it has nothing to change there, or is made by a name that is constant.
   */
  lemma VectorRespectsPrivateIff(num: Numbers, layers: seq<Layer>, name: string, member: bool, l: nat,
                                 update: VectorUpdate)
    requires l < |layers| && WellTyped(layers[l]) && FindVar(layers, name) == Some(l) && name in layers[l].typeOf
    requires Guard(layers, l, Target(name, member)) != None
    ensures var target := Target(name, member);
            SameVar(layers[l], UpdateVector(num, layers, name, member, update).layers[l], target) <==>
              name in layers[l].constants || !Takes(num, layers[l], layers[l].typeOf[name], target, update)
  {
    hide FindVar, UpdateVector, Takes, SameVar, Target;
    VectorChangesIff(num, layers, name, member, update, l, Target(name, member));
  }

  lemma SameVarItself(layer: Layer, name: string)
    ensures SameVar(layer, layer, name)
  {
  }

  lemma WriteChangesIff(layers: seq<Layer>, l: nat, store: Store, name: string, cell: Cell)
    requires l < |layers|
    ensures SameVar(layers[l], Write(layers, l, Slot(store, name), cell)[l], name) <==>
              Get(layers[l], store, name) == cell
  {
    var after := Write(layers, l, Slot(store, name), cell)[l];
    assert Get(after, store, name) == cell;
    assert forall s | s != store :: Get(after, s, name) == Get(layers[l], s, name);
  }

  lemma NeverTakes(num: Numbers, layer: Layer, varType: string, target: string, update: VectorUpdate)
    requires varType != "std::vector<double>" && varType != STRINGS
    ensures !Takes(num, layer, varType, target, update)
  {
  }

  /**
   So any function can push onto a private vector of the page: from any scope, to any vector of
   strings that is no constant.
   */
  lemma PrivateVectorIsPushedOnto(num: Numbers, page: Layer, body: Layer, name: string, value: string)
    requires WellTyped(page) && name in page.typeOf && page.typeOf[name] == STRINGS
    requires name in page.privates && name !in page.constants
    requires body.scope !in InScopes(page, name) && name !in body.typeOf
    ensures var layers := [page, body];
            && Guard(layers, 0, name) == Some(PrivateChange)
            && !SameVar(page, UpdateVector(num, layers, name, false, PushBack([value])).layers[0], name)
  {
    var layers := [page, body];
    assert layers[..1] == [page];
    assert FindVar([page], name) == Some(0);
    assert FindVar(layers, name) == Some(0);
    VectorRespectsPrivateIff(num, layers, name, false, 0, PushBack([value]));
  }

  // ---- Erasing texts ----

  /** Where an erased range ends. */
  function EraseEnd(from: int, until: Option<int>): int {
    if until.Some? then until.value else from + 1
  }

  /** The range an erase names lies within a vector of some size. */
  predicate RangeWithin(from: int, until: Option<int>, size: nat) {
    0 <= from <= EraseEnd(from, until) <= size
  }

  /**
   Erasing from a vector of strings measures the vector of doubles of that name. It succeeds
   exactly when the range starts inside that vector and lies within both.
   */
  lemma ErasesTextsIff(num: Numbers, layers: seq<Layer>, name: string, member: bool, l: nat, from: int,
                       until: Option<int>)
    requires FindVar(layers, name) == Some(l) && l < |layers| && name in layers[l].typeOf
               && name !in layers[l].constants
    requires layers[l].typeOf[name] == STRINGS
    ensures var r, target := UpdateVector(num, layers, name, member, Erase(from, until)), Target(name, member);
            var doubles, texts := |DoublesOf(layers[l], target)|, TextsOf(layers[l], target);
            && (r.failure == None <==>
                  from < doubles && RangeWithin(from, until, doubles) && RangeWithin(from, until, |texts|))
            && (r.failure == None ==> TextsOf(r.layers[l], target) == texts[..from] + texts[EraseEnd(from, until)..])
            && (r.failure.Some? ==> TextsOf(r.layers[l], target) == texts)
  {
    hide FindVar, Target, DoublesOf;
    var layer, target := layers[l], Target(name, member);
    var updated := UpdateTexts(TextsOf(layer, target), |DoublesOf(layer, target)|, Erase(from, until));
    assert UpdateVector(num, layers, name, member, Erase(from, until)).layers ==
             Write(layers, l, Slot(StrVecs, target), TextList(updated.0));
  }

  /** So with no vector of doubles of that name not even the first text can be erased. */
  lemma TextsAreNeverErased(num: Numbers, layers: seq<Layer>, name: string, l: nat, from: int, until: Option<int>)
    requires FindVar(layers, name) == Some(l) && l < |layers| && name in layers[l].typeOf
               && name !in layers[l].constants
    requires layers[l].typeOf[name] == STRINGS && Slot(DoubVecs, name) !in layers[l].values
    ensures UpdateVector(num, layers, name, false, Erase(from, until)).failure == Some(OutOfBounds)
  {
    hide FindVar;
  }

  /** A vector of one text, from which erasing the first is refused. */
  lemma FirstTextIsNotErased(num: Numbers)
    ensures var layer := EMPTY.(typeOf := map["v" := STRINGS], values := map[Slot(StrVecs, "v") := TextList(["a"])]);
            && RangeWithin(0, None, |TextsOf(layer, "v")|)
            && UpdateVector(num, [layer], "v", false, Erase(0, None)) == Done([layer], Some(OutOfBounds))
  {
    var layer := EMPTY.(typeOf := map["v" := STRINGS], values := map[Slot(StrVecs, "v") := TextList(["a"])]);
    assert FindVar([layer], "v") == Some(0);
    assert layer.values[Slot(StrVecs, "v") := TextList(["a"])] == layer.values;
  }

  // ---- Whole runs ----

  /** Constants and privates are declared names. */
  predicate WellDeclared(layers: seq<Layer>) {
    forall l | 0 <= l < |layers| :: layers[l].constants <= layers[l].typeOf.Keys
        && layers[l].privates <= layers[l].typeOf.Keys
  }

  predicate AllTyped(layers: seq<Layer>) {
    forall l | 0 <= l < |layers| :: WellTyped(layers[l])
  }

  ghost predicate IsRun(num: Numbers, states: seq<seq<Layer>>, ops: seq<Op>) {
    && |states| == |ops| + 1
    && WellDeclared(states[0]) && AllTyped(states[0])
    && forall i | 0 <= i < |ops| :: Enabled(states[i], ops[i]) && states[i + 1] == Apply(num, states[i], ops[i])
  }

  /** What an operation does to a layer that is there before and after it: declared names keep their flags. */
  ghost predicate Keeps(before: Layer, after: Layer) {
    forall name | name in before.typeOf ::
      && name in after.typeOf && after.typeOf[name] == before.typeOf[name]
      && (name in before.constants <==> name in after.constants)
      && (name in before.privates <==> name in after.privates)
      && InScopes(before, name) == InScopes(after, name)
  }

  lemma OpKeepsFlags(num: Numbers, layers: seq<Layer>, op: Op, l: nat)
    requires Enabled(layers, op) && l < |layers| && l < |Apply(num, layers, op)|
    ensures Keeps(layers[l], Apply(num, layers, op)[l])
  {
    hide FindVar, AssignAll, IncrementAll, Assign, UpdateVector, SameVar;
    var after := Apply(num, layers, op);
    if IsGuardedOp(op) {
      GuardedOps(num, layers, op);
      assert SameFlags(layers[l], after[l]);
    } else if op.Vector? {
      VectorChangesOnly(num, layers, op.name, op.member, op.update);
      assert SameFlags(layers[l], after[l]);
    }
  }

  lemma OpKeepsDeclared(num: Numbers, layers: seq<Layer>, op: Op)
    requires Enabled(layers, op) && WellDeclared(layers)
    ensures WellDeclared(Apply(num, layers, op))
  {
    var after := Apply(num, layers, op);
    if IsGuardedOp(op) {
      GuardedOps(num, layers, op);
      assert forall l | 0 <= l < |after| :: SameFlags(layers[l], after[l]);
    } else if op.Vector? {
      VectorChangesOnly(num, layers, op.name, op.member, op.update);
      assert forall l | 0 <= l < |after| :: SameFlags(layers[l], after[l]);
    }
  }

  // ---- Stored values keep their types ----

  lemma WriteKeepsTyped(layers: seq<Layer>, l: nat, store: Store, name: string, cell: Cell)
    requires l < |layers| && AllTyped(layers) && Fits(store, cell)
    ensures AllTyped(Write(layers, l, Slot(store, name), cell))
  {
    hide Fits;
  }

  lemma FromTextFits(num: Numbers, varType: string, value: string)
    ensures var r := FromText(num, varType, value); r.Ok? && r.value.Some? ==> Fits(r.value.value.0, r.value.value.1)
  {
  }

  lemma GetFits(layer: Layer, store: Store, name: string)
    requires WellTyped(layer)
    ensures Fits(store, Get(layer, store, name))
  {
  }

  lemma SteppedFits(layer: Layer, varType: string, name: string, step: int)
    requires WellTyped(layer)
    ensures var r := Stepped(layer, varType, name, step); r.Ok? && r.value.Some? ==>
              Fits(r.value.value.0, r.value.value.1)
  {
    forall store: Store
      ensures Fits(store, Get(layer, store, name))
    {
      GetFits(layer, store, name);
    }
    hide WellTyped, Get;
  }

  lemma AssignKeepsTyped(num: Numbers, layers: seq<Layer>, name: string, value: string)
    requires AllTyped(layers)
    ensures AllTyped(Assign(num, layers, name, value).layers)
  {
    hide FindVar, FromText, Guard, AllTyped, Fits;
    var found := FindVar(layers, name);
    if found.Some? {
      FoundDeclares(layers, name);
      var varType := layers[found.value].typeOf[name];
      FromTextFits(num, varType, value);
      var r := FromText(num, varType, value);
      if r.Ok? && r.value.Some? {
        WriteKeepsTyped(layers, found.value, r.value.value.0, name, r.value.value.1);
      }
    }
  }

  lemma IncrementKeepsTyped(layers: seq<Layer>, name: string, step: int)
    requires AllTyped(layers)
    ensures AllTyped(Increment(layers, name, step).layers)
  {
    hide FindVar, Stepped, Guard, Fits;
    var found := FindVar(layers, name);
    if found.Some? {
      FoundDeclares(layers, name);
      var varType := layers[found.value].typeOf[name];
      SteppedFits(layers[found.value], varType, name, step);
      var r := Stepped(layers[found.value], varType, name, step);
      if r.Ok? && r.value.Some? {
        WriteKeepsTyped(layers, found.value, r.value.value.0, name, r.value.value.1);
      }
    }
  }

  lemma {:induction false} AssignAllKeepsTyped(num: Numbers, layers: seq<Layer>, names: seq<string>, value: string)
    requires AllTyped(layers)
    ensures AllTyped(AssignAll(num, layers, names, value).layers)
    decreases |names|
  {
    hide Assign, AllTyped;
    if names == [] {
    } else {
      AssignKeepsTyped(num, layers, names[0], value);
      AssignAllKeepsTyped(num, Assign(num, layers, names[0], value).layers, names[1..], value);
    }
  }

  lemma {:induction false} IncrementAllKeepsTyped(layers: seq<Layer>, names: seq<string>, step: int)
    requires AllTyped(layers)
    ensures AllTyped(IncrementAll(layers, names, step).layers)
    decreases |names|
  {
    hide Increment, AllTyped;
    if names == [] {
    } else {
      IncrementKeepsTyped(layers, names[0], step);
      IncrementAllKeepsTyped(Increment(layers, names[0], step).layers, names[1..], step);
    }
  }

  lemma VectorKeepsTyped(num: Numbers, layers: seq<Layer>, name: string, member: bool, update: VectorUpdate)
    requires AllTyped(layers)
    ensures AllTyped(UpdateVector(num, layers, name, member, update).layers)
  {
    hide FindVar, UpdateDoubles, UpdateTexts, AllTyped, DoublesOf, TextsOf, Target;
    var found, target := FindVar(layers, name), Target(name, member);
    if found.Some? {
      FoundDeclares(layers, name);
      var layer := layers[found.value];
      WriteKeepsTyped(layers, found.value, DoubVecs, target,
          DoubleList(UpdateDoubles(num, DoublesOf(layer, target), update).0));
      WriteKeepsTyped(layers, found.value, StrVecs, target,
                      TextList(UpdateTexts(TextsOf(layer, target), |DoublesOf(layer, target)|, update).0));
    }
  }

  lemma OpKeepsTyped(num: Numbers, layers: seq<Layer>, op: Op)
    requires Enabled(layers, op) && AllTyped(layers)
    ensures AllTyped(Apply(num, layers, op))
  {
    hide AssignAll, IncrementAll, Assign, UpdateVector, Fits;
    match op
    case Equals(names, value) => AssignAllKeepsTyped(num, layers, names, value);
    case ArithEquals(name, result) => AssignKeepsTyped(num, layers, name, result);
    case PlusPlus(names) => IncrementAllKeepsTyped(layers, names, 1);
    case MinusMinus(names) => IncrementAllKeepsTyped(layers, names, -1);
    case Vector(name, member, update) => VectorKeepsTyped(num, layers, name, member, update);
    case _ =>
  }

  // ---- Constants ----

  /** A member update of options or params that means the backup a call keeps under this name. */
  predicate MeansBackup(op: Op, name: string) {
    op.Vector? && op.name != name && Target(op.name, op.member) == name
  }

  lemma OpKeepsConstant(num: Numbers, layers: seq<Layer>, op: Op, l: nat, name: string)
    requires Enabled(layers, op) && l < |layers| && l < |Apply(num, layers, op)|
    requires name in layers[l].constants && name in layers[l].typeOf && !MeansBackup(op, name)
    ensures SameVar(layers[l], Apply(num, layers, op)[l], name)
  {
    hide FindVar, AssignAll, IncrementAll, Assign, UpdateVector;
    if IsGuardedOp(op) {
      GuardedOps(num, layers, op);
      GuardedAt(layers, Apply(num, layers, op), l, name);
      hide SameVar;
    } else if op.Vector? {
      VectorChangesOnly(num, layers, op.name, op.member, op.update);
      hide SameVar;
    }
  }

  /**
   A member update of options or params that goes to the backup a call keeps under this name:
   the check looks at the name it is made by, and the name is changed after the check.
   */
  predicate ReachesBackup(num: Numbers, layers: seq<Layer>, op: Op, l: nat, name: string)
    requires l < |layers|
  {
    && MeansBackup(op, name)
    && FindVar(layers, op.name) == Some(l) && op.name in layers[l].typeOf && op.name !in layers[l].constants
    && Takes(num, layers[l], layers[l].typeOf[op.name], name, op.update)
  }

  /** An operation changes a constant exactly when it is such an update. */
  lemma ConstantChangesIff(num: Numbers, layers: seq<Layer>, op: Op, l: nat, name: string)
    requires Enabled(layers, op) && l < |layers| && l < |Apply(num, layers, op)|
    requires WellDeclared(layers) && AllTyped(layers) && name in layers[l].constants
    ensures !SameVar(layers[l], Apply(num, layers, op)[l], name) <==> ReachesBackup(num, layers, op, l, name)
  {
    hide FindVar, AssignAll, IncrementAll, Assign, UpdateVector, Takes, SameVar;
    if MeansBackup(op, name) {
      VectorChangesIff(num, layers, op.name, op.member, op.update, l, name);
    } else {
      OpKeepsConstant(num, layers, op, l, name);
    }
  }

  /** A page's constant of that name is changed by pushing onto params as a member. */
  lemma ConstantBackupIsPushedOnto(num: Numbers)
    ensures var layer := EMPTY.(typeOf := map["params" := STRINGS, "__params" := STRINGS], constants := {"__params"},
                                values := map[Slot(StrVecs, "__params") := TextList(["a"])]);
            var op := Vector("params", true, PushBack(["b"]));
            && Enabled([layer], op) && WellDeclared([layer]) && AllTyped([layer])
            && !SameVar(layer, Apply(num, [layer], op)[0], "__params")
            && TextsOf(Apply(num, [layer], op)[0], "__params") == ["a", "b"]
  {
    var layer := EMPTY.(typeOf := map["params" := STRINGS, "__params" := STRINGS], constants := {"__params"},
                        values := map[Slot(StrVecs, "__params") := TextList(["a"])]);
    assert FindVar([layer], "params") == Some(0);
    assert Target("params", true) == "__params";
    ConstantChangesIff(num, [layer], Vector("params", true, PushBack(["b"])), 0, "__params");
  }

  /** The variable is the same all through the run. */
  ghost predicate NeverChanges(states: seq<seq<Layer>>, l: nat, name: string)
    requires forall i | 0 <= i < |states| :: l < |states[i]|
  {
    forall i | 0 <= i < |states| :: SameVar(states[0][l], states[i][l], name)
  }

  lemma {:induction false} ConstantsStay(num: Numbers, states: seq<seq<Layer>>, ops: seq<Op>, l: nat, name: string,
                                         i: nat)
    requires IsRun(num, states, ops) && forall k | 0 <= k < |states| :: l < |states[k]|
    requires name in states[0][l].constants && i <= |ops|
    ensures WellDeclared(states[i]) && AllTyped(states[i]) && name in states[i][l].constants
  {
    if i == 0 {
    } else {
      ConstantsStay(num, states, ops, l, name, i - 1);
      hide Enabled, Apply;
      assert l < |states[i]|;
      OpKeepsFlags(num, states[i - 1], ops[i - 1], l);
      OpKeepsDeclared(num, states[i - 1], ops[i - 1]);
      OpKeepsTyped(num, states[i - 1], ops[i - 1]);
    }
  }

  lemma {:induction false} KeptUntil(num: Numbers, states: seq<seq<Layer>>, ops: seq<Op>, l: nat, name: string, i: nat)
    requires IsRun(num, states, ops) && forall k | 0 <= k < |states| :: l < |states[k]|
    requires name in states[0][l].constants && i <= |ops|
    requires forall k | 0 <= k < i :: !ReachesBackup(num, states[k], ops[k], l, name)
    ensures SameVar(states[0][l], states[i][l], name)
  {
    hide SameVar;
    if i == 0 {
      SameVarItself(states[0][l], name);
    } else {
      KeptUntil(num, states, ops, l, name, i - 1);
      ConstantsStay(num, states, ops, l, name, i - 1);
      assert l < |states[i]|;
      ConstantChangesIff(num, states[i - 1], ops[i - 1], l, name);
      SameVarThen(states[0][l], states[i - 1][l], states[i][l], name);
    }
  }

  /**
   When constants never change. Over any run of assignments, increments, vector updates,
   declarations and layers coming and going, a constant stays constant while its layer lives,
   and keeps its value throughout exactly when no step is a member update of options or params
   that reaches it as their backup.
   */
  lemma ConstantsNeverChangeIff(num: Numbers, states: seq<seq<Layer>>, ops: seq<Op>, l: nat, name: string)
    requires IsRun(num, states, ops) && forall i | 0 <= i < |states| :: l < |states[i]|
    requires name in states[0][l].constants
    ensures forall i | 0 <= i < |states| :: name in states[i][l].constants
    ensures NeverChanges(states, l, name) <==>
              forall i | 0 <= i < |ops| :: !ReachesBackup(num, states[i], ops[i], l, name)
  {
    hide SameVar, ReachesBackup;
    forall i | 0 <= i < |states|
      ensures name in states[i][l].constants && WellDeclared(states[i]) && AllTyped(states[i])
    {
      ConstantsStay(num, states, ops, l, name, i);
    }
    if forall i | 0 <= i < |ops| :: !ReachesBackup(num, states[i], ops[i], l, name) {
      forall i | 0 <= i < |states|
        ensures SameVar(states[0][l], states[i][l], name)
      {
        KeptUntil(num, states, ops, l, name, i);
      }
    } else {
      var i :| 0 <= i < |ops| && ReachesBackup(num, states[i], ops[i], l, name);
      assert l < |states[i + 1]|;
      ConstantChangesIff(num, states[i], ops[i], l, name);
      if SameVar(states[0][l], states[i][l], name) && SameVar(states[0][l], states[i + 1][l], name) {
        SameVarBetween(states[0][l], states[i][l], states[i + 1][l], name);
        assert false;
      }
    }
  }

  lemma SameVarBetween(a: Layer, b: Layer, c: Layer, name: string)
    requires SameVar(a, b, name) && SameVar(a, c, name)
    ensures SameVar(b, c, name)
  {
  }

  lemma OpNeedsScope(num: Numbers, layers: seq<Layer>, op: Op, l: nat, name: string)
    requires Enabled(layers, op) && l < |layers| && l < |Apply(num, layers, op)| && !op.Vector?
    requires WellDeclared(layers) && name in layers[l].privates
    ensures !SameVar(layers[l], Apply(num, layers, op)[l], name) ==>
              layers[|layers| - 1].scope in InScopes(layers[l], name)
  {
    hide FindVar, AssignAll, IncrementAll, Assign, UpdateVector;
    if IsGuardedOp(op) {
      GuardedOps(num, layers, op);
      GuardedAt(layers, Apply(num, layers, op), l, name);
      hide SameVar;
    }
  }

  /**
   Privates change only under their scopes. Over any run, while its layer lives a private
   variable stays private to the same scopes, and every step that changes it, vector updates
   apart, is taken while the scope on top is one of them.
   */
  lemma {:induction false} PrivatesNeedScope(num: Numbers, states: seq<seq<Layer>>, ops: seq<Op>, l: nat,
                                             name: string, i: nat)
    requires IsRun(num, states, ops) && forall k | 0 <= k < |states| :: l < |states[k]|
    requires name in states[0][l].privates && i <= |ops|
    ensures WellDeclared(states[i])
    ensures name in states[i][l].privates && InScopes(states[i][l], name) == InScopes(states[0][l], name)
    ensures i < |ops| && !ops[i].Vector? && !SameVar(states[i][l], states[i + 1][l], name) ==>
              states[i][|states[i]| - 1].scope in InScopes(states[0][l], name)
  {
    hide Apply, Enabled, SameVar;
    if i == 0 {
    } else {
      assert l < |states[i]|;
      PrivatesNeedScope(num, states, ops, l, name, i - 1);
      OpKeepsFlags(num, states[i - 1], ops[i - 1], l);
      OpKeepsDeclared(num, states[i - 1], ops[i - 1]);
    }
    if i < |ops| && !ops[i].Vector? {
      assert l < |states[i + 1]|;
      OpNeedsScope(num, states[i], ops[i], l, name);
    }
  }

  /** A permitted write reaches the innermost variable of its name and nothing else. */
  lemma WriteReachesInnermost(num: Numbers, layers: seq<Layer>, name: string, value: string, l: nat, other: string)
    requires l < |layers| && !SameVar(layers[l], Assign(num, layers, name, value).layers[l], other)
    ensures other == name && FindVar(layers, name) == Some(l) && Guard(layers, l, name) == None
  {
    hide FindVar, FromText, SameVar, Assign, Guard;
    AssignIsGuarded(num, layers, name, value);
    GuardedAt(layers, Assign(num, layers, name, value).layers, l, other);
    if other != name {
      AssignTouchesName(num, layers, name, value, l, other);
    }
  }

  lemma AssignTouchesName(num: Numbers, layers: seq<Layer>, name: string, value: string, l: nat, other: string)
    requires l < |layers| && other != name
    ensures SameVar(layers[l], Assign(num, layers, name, value).layers[l], other)
  {
    hide FindVar, FromText, Guard;
    var after := Assign(num, layers, name, value).layers;
    assert forall store: Store :: Slot(store, other) in after[l].values <==> Slot(store, other) in layers[l].values;
  }

  /** A failing assignment changes nothing. */
  lemma FailedAssignChangesNothing(num: Numbers, layers: seq<Layer>, name: string, value: string)
    requires Assign(num, layers, name, value).failure.Some?
    ensures Assign(num, layers, name, value).layers == layers
  {
  }
}
