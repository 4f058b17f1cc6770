/**
 The variables of Variables.cpp and the operations of Parser.cpp that change them: layers with
 one store per basic type, the constant and private checks, assignment, increments and vector
 updates. What number parsing says of a text is given as data.
 */
module Variables {
  import opened FunctionScopes
  import opened Results

  datatype Store = Bools | Ints | Llints | Doubles | Chars | Strings | DoubVecs | StrVecs

  datatype Cell =
    | Flag(flag: bool)
    | Int(number: int)
    | Double(double: real)
    | Char(letter: char)
    | Text(text: string)
    | DoubleList(doubles: seq<real>)
    | TextList(texts: seq<string>)

  /** One value of one of a layer's per-type maps. */
  datatype Slot = Slot(store: Store, name: string)

  datatype Layer = Layer(
    scope: string,
    constants: set<string>,
    privates: set<string>,
    inScopes: map<string, set<string>>,
    typeOf: map<string, string>,
    values: map<Slot, Cell>)

  /** What isInt, atoi, isDouble and strtod say. */
  datatype Numbers = Numbers(isInt: string -> bool, atoi: string -> int, isDouble: string -> bool,
      strtod: string -> real)

  datatype Failure = NoVariable | ConstantChange | PrivateChange | NotConvertible | NoOperator | OutOfBounds
      | Redeclared | NoName | Undefined

  /** The layers after an operation, and how it failed if it did; what it did before failing stays. */
  datatype Done = Done(layers: seq<Layer>, failure: Option<Failure>)

  const STRINGS := "std::vector<string>"

  const EMPTY := Layer("", {}, {}, map[], map[], map[])

  function Default(store: Store): Cell {
    match store
    case Bools => Flag(false)
    case Ints => Int(0)
    case Llints => Int(0)
    case Doubles => Double(0.0)
    case Chars => Char('\0')
    case Strings => Text("")
    case DoubVecs => DoubleList([])
    case StrVecs => TextList([])
  }

  /** What a store's values look like. */
  predicate Fits(store: Store, cell: Cell) {
    match store
    case Bools => cell.Flag?
    case Ints => cell.Int?
    case Llints => cell.Int?
    case Doubles => cell.Double?
    case Chars => cell.Char?
    case Strings => cell.Text?
    case DoubVecs => cell.DoubleList?
    case StrVecs => cell.TextList?
  }

  /** The per-type maps hold values of their types. */
  predicate WellTyped(layer: Layer) {
    forall slot | slot in layer.values :: Fits(slot.store, layer.values[slot])
  }

  /** operator[] of the per-type maps: what is not there is the default. */
  function Get(layer: Layer, store: Store, name: string): Cell {
    if Slot(store, name) in layer.values then layer.values[Slot(store, name)] else Default(store)
  }

  function InScopes(layer: Layer, name: string): set<string> {
    if name in layer.inScopes then layer.inScopes[name] else {}
  }

  /** find: the innermost layer that declares the name. */
  function FindVar(layers: seq<Layer>, name: string): (r: Option<nat>)
    ensures r.Some? ==> r.value < |layers| && name in layers[r.value].typeOf
    ensures r.Some? ==> forall l | r.value < l < |layers| :: name !in layers[l].typeOf
    ensures r.None? ==> forall l | 0 <= l < |layers| :: name !in layers[l].typeOf
  {
    if layers == [] then None
    else if name in layers[|layers| - 1].typeOf then Some(|layers| - 1)
    else FindVar(layers[..|layers| - 1], name)
  }

  /** The check every guarded write makes. */
  function Guard(layers: seq<Layer>, l: nat, name: string): Option<Failure>
    requires l < |layers|
  {
    if name in layers[l].constants then Some(ConstantChange)
    else if name in layers[l].privates && layers[|layers| - 1].scope !in InScopes(layers[l], name)
        then Some(PrivateChange)
    else None
  }

  function Write(layers: seq<Layer>, l: nat, slot: Slot, cell: Cell): (r: seq<Layer>)
    requires l < |layers|
    ensures |r| == |layers|
  {
    layers[l := layers[l].(values := layers[l].values[slot := cell])]
  }

  /** Truncation toward zero. */
  function Trunc(x: real): int {
    if x >= 0.0 then x.Floor else -((-x).Floor)
  }

  /** What a text becomes in a variable of a type: the store and value written, nothing, or a failure. */
  function FromText(num: Numbers, varType: string, value: string): Result<Option<(Store, Cell)>, Failure> {
    if varType == "std::bool" then
      if num.isInt(value) then Ok(Some((Bools, Flag(num.atoi(value) != 0))))
      else if num.isDouble(value) then Ok(Some((Bools, Flag(num.strtod(value) != 0.0))))
      else Err(NotConvertible)
    else if varType == "std::int" then
      if num.isInt(value) then Ok(Some((Ints, Int(num.atoi(value)))))
      else if num.isDouble(value) then Ok(Some((Ints, Int(Trunc(num.strtod(value))))))
      else Err(NotConvertible)
    else if varType == "std::double" then
      if num.isDouble(value) then Ok(Some((Doubles, Double(num.strtod(value))))) else Err(NotConvertible)
    else if varType == "std::char" then
      if |value| == 1 then Ok(Some((Chars, Char(value[0])))) else Err(NotConvertible)
    else if varType == "std::string" then Ok(Some((Strings, Text(value))))
    else if varType == "std::llint" then
      if num.isInt(value) then Ok(Some((Llints, Int(num.atoi(value)))))
      else if num.isDouble(value) then Ok(Some((Ints, Int(Trunc(num.strtod(value))))))
      else Err(NotConvertible)
    else if |varType| >= 5 && varType[..5] == "std::" then Ok(None)
    else if varType == "bool" then
      if num.isInt(value) then Ok(Some((Doubles, Double(if num.atoi(value) != 0 then 1.0 else 0.0))))
      else if num.isDouble(value) then Ok(Some((Doubles, Double(if num.strtod(value) != 0.0 then 1.0 else 0.0))))
      else Err(NotConvertible)
    else if varType == "int" then
      if num.isInt(value) then Ok(Some((Doubles, Double(num.atoi(value) as real))))
      else if num.isDouble(value) then Ok(Some((Doubles, Double(Trunc(num.strtod(value)) as real))))
      else Err(NotConvertible)
    else if varType == "double" then
      if num.isDouble(value) then Ok(Some((Doubles, Double(num.strtod(value))))) else Err(NotConvertible)
    else if varType == "char" then
      if |value| == 1 then Ok(Some((Strings, Text(value)))) else Err(NotConvertible)
    else if varType == "string" then Ok(Some((Strings, Text(value))))
    else Err(NotConvertible)
  }

  /** set_var_from_str on a variable that was found. */
  function SetFromText(num: Numbers, layers: seq<Layer>, l: nat, name: string, value: string): (r: Done)
    requires l < |layers| && name in layers[l].typeOf
    ensures |r.layers| == |layers|
  {
    if Guard(layers, l, name).Some? then Done(layers, Guard(layers, l, name))
    else
      match FromText(num, layers[l].typeOf[name], value)
      case Err(failure) => Done(layers, Some(failure))
      case Ok(None) => Done(layers, None)
      case Ok(Some((store, cell))) => Done(Write(layers, l, Slot(store, name), cell), None)
  }

  function Assign(num: Numbers, layers: seq<Layer>, name: string, value: string): (r: Done)
    ensures |r.layers| == |layers|
  {
    match FindVar(layers, name)
    case None => Done(layers, Some(NoVariable))
    case Some(l) => SetFromText(num, layers, l, name, value)
  }

  /** "=": the names in turn, up to the first that fails. */
  function AssignAll(num: Numbers, layers: seq<Layer>, names: seq<string>, value: string): (r: Done)
    ensures |r.layers| == |layers|
    decreases |names|
  {
    if names == [] then Done(layers, None)
    else
      var first := Assign(num, layers, names[0], value);
      if first.failure.Some? then first else AssignAll(num, first.layers, names[1..], value)
  }

  function NextChar(c: char, step: int): char {
    ((c as int + step) % 256) as char
  }

  /** What ++ (step 1) and -- (step -1) make of a variable of a type. */
  function Stepped(layer: Layer, varType: string, name: string, step: int): Result<Option<(Store, Cell)>, Failure> {
    if varType == "std::int" then
      var cell := Get(layer, Ints, name);
      Ok(Some((Ints, if cell.Int? then Int(cell.number + step) else cell)))
    else if varType == "std::bool" then
      var cell := Get(layer, Bools, name);
      Ok(Some((Bools, if cell.Flag? then Flag(!cell.flag) else cell)))
    else if varType == "std::double" || varType == "int" || varType == "double" then
      var cell := Get(layer, Doubles, name);
      Ok(Some((Doubles, if cell.Double? then Double(cell.double + step as real) else cell)))
    else if varType == "std::char" then
      var cell := Get(layer, Chars, name);
      Ok(Some((Chars, if cell.Char? then Char(NextChar(cell.letter, step)) else cell)))
    else if varType == "std::llint" then
      var cell := Get(layer, Llints, name);
      Ok(Some((Llints, if cell.Int? then Int(cell.number + step) else cell)))
    else if |varType| >= 5 && varType[..5] == "std::" then Ok(None)
    else if varType == "bool" then
      var cell := Get(layer, Doubles, name);
      Ok(Some((Doubles, if cell.Double? && cell.double == 0.0 then Double(1.0) else Double(0.0))))
    else if varType == "char" && Get(layer, Strings, name).Text? && Get(layer, Strings, name).text != "" then
      var text := Get(layer, Strings, name).text;
      Ok(Some((Strings, Text([NextChar(text[0], step)] + text[1..]))))
    else Err(NoOperator)
  }

  function Increment(layers: seq<Layer>, name: string, step: int): (r: Done)
    ensures |r.layers| == |layers|
  {
    match FindVar(layers, name)
    case None => Done(layers, Some(NoVariable))
    case Some(l) =>
      if Guard(layers, l, name).Some? then Done(layers, Guard(layers, l, name))
      else
        match Stepped(layers[l], layers[l].typeOf[name], name, step)
        case Err(failure) => Done(layers, Some(failure))
        case Ok(None) => Done(layers, None)
        case Ok(Some((store, cell))) => Done(Write(layers, l, Slot(store, name), cell), None)
  }

  function IncrementAll(layers: seq<Layer>, names: seq<string>, step: int): (r: Done)
    ensures |r.layers| == |layers|
    decreases |names|
  {
    if names == [] then Done(layers, None)
    else
      var first := Increment(layers, names[0], step);
      if first.failure.Some? then first else IncrementAll(first.layers, names[1..], step)
  }

  // ---- Vector updates ----

  datatype VectorUpdate =
    | PushBack(values: seq<string>)
    | SetAt(index: int, value: string)
    | PopBack
    | Erase(from: int, until: Option<int>)

  /** Called as a member function, options and params stand for the backups a call keeps of them. */
  function Target(name: string, member: bool): string {
    if member && (name == "options" || name == "params") then "__" + name else name
  }

  /** Doubles pushed up to the first text that is none, and whether there was one. */
  function PushDoubles(num: Numbers, doubles: seq<real>, values: seq<string>): (seq<real>, bool)
    decreases |values|
  {
    if values == [] then (doubles, false)
    else if !num.isDouble(values[0]) then (doubles, true)
    else PushDoubles(num, doubles + [num.strtod(values[0])], values[1..])
  }

  /** An update of a vector of doubles: its new value and a failure if there is one. */
  function UpdateDoubles(num: Numbers, v: seq<real>, update: VectorUpdate): (seq<real>, Option<Failure>) {
    match update
    case PushBack(values) =>
      var (pushed, bad) := PushDoubles(num, v, values);
      (pushed, if bad then Some(NotConvertible) else None)
    case SetAt(i, value) =>
      if i < 0 || i >= |v| then (v, Some(OutOfBounds))
      else if !num.isDouble(value) then (v, Some(NotConvertible))
      else (v[i := num.strtod(value)], None)
    case PopBack => if v == [] then (v, Some(Undefined)) else (v[..|v| - 1], None)
    case Erase(i, until) =>
      if i < 0 || i >= |v| then (v, Some(OutOfBounds))
      else
        var j := if until.Some? then until.value else i + 1;
        if j < 0 || j > |v| then (v, Some(OutOfBounds))
        else if j < i then (v, Some(Undefined))
        else (v[..i] + v[j..], None)
  }

  /** An update of a vector of strings; erase takes the size of the vector of doubles of that name. */
  function UpdateTexts(v: seq<string>, doublesSize: nat, update: VectorUpdate): (seq<string>, Option<Failure>) {
    match update
    case PushBack(values) => (v + values, None)
    case SetAt(i, value) => if i < 0 || i >= |v| then (v, Some(OutOfBounds)) else (v[i := value], None)
    case PopBack => if v == [] then (v, Some(Undefined)) else (v[..|v| - 1], None)
    case Erase(i, until) =>
      if i < 0 || i >= doublesSize then (v, Some(OutOfBounds))
      else
        var j := if until.Some? then until.value else i + 1;
        if j < 0 || j > doublesSize then (v, Some(OutOfBounds))
        else if j < i || j > |v| then (v, Some(Undefined))
        else (v[..i] + v[j..], None)
  }

  function DoublesOf(layer: Layer, name: string): seq<real> {
    var cell := Get(layer, DoubVecs, name);
    if cell.DoubleList? then cell.doubles else []
  }

  function TextsOf(layer: Layer, name: string): seq<string> {
    var cell := Get(layer, StrVecs, name);
    if cell.TextList? then cell.texts else []
  }

  /** push_back, set, pop_back and erase: they check for constants, and not for privates. */
  function UpdateVector(num: Numbers, layers: seq<Layer>, name: string, member: bool, update: VectorUpdate): (r: Done)
    ensures |r.layers| == |layers|
  {
    match FindVar(layers, name)
    case None => Done(layers, Some(NoVariable))
    case Some(l) =>
      var layer, target := layers[l], Target(name, member);
      if name in layer.constants then Done(layers, Some(ConstantChange))
      else if layer.typeOf[name] == "std::vector<double>" then
        var (v, failure) := UpdateDoubles(num, DoublesOf(layer, target), update);
        Done(Write(layers, l, Slot(DoubVecs, target), DoubleList(v)), failure)
      else if layer.typeOf[name] == STRINGS then
        var (v, failure) := UpdateTexts(TextsOf(layer, target), |DoublesOf(layer, target)|, update);
        Done(Write(layers, l, Slot(StrVecs, target), TextList(v)), failure)
      else Done(layers, Some(NoOperator))
  }

  // ---- Declarations and layers ----

  /**
   ":=" in a layer: a new name, its type, its first value, whether it is constant, and the
   scopes it is private to.
   */
  function Declare(layers: seq<Layer>, l: nat, name: string, varType: string, first: Option<(Store, Cell)>,
                   constant: bool, scopes: Option<set<string>>): (r: Done)
    requires l < |layers|
    ensures |r.layers| == |layers|
  {
    var layer := layers[l];
    if name == "" then Done(layers, Some(NoName))
    else if name in layer.typeOf then Done(layers, Some(Redeclared))
    else
      var declared := layer.(
        typeOf := layer.typeOf[name := varType],
        inScopes := layer.inScopes[name := InScopes(layer, name) + {layer.scope + NameScope(name)}
            + (if scopes.Some? then scopes.value else {})],
        constants := if constant then layer.constants + {name} else layer.constants,
        privates := if scopes.Some? then layer.privates + {name} else layer.privates,
        values := if first.Some? then layer.values[Slot(first.value.0, name) := first.value.1] else layer.values);
      Done(layers[l := declared], None)
  }

  datatype Op =
    | Equals(names: seq<string>, value: string)
    | ArithEquals(name: string, result: string)
    | PlusPlus(names: seq<string>)
    | MinusMinus(names: seq<string>)
    | Vector(name: string, member: bool, update: VectorUpdate)
    | Define(layer: nat, name: string, varType: string, first: Option<(Store, Cell)>, constant: bool,
        scopes: Option<set<string>>)
    | Enter(scope: string)
    | Leave
    | Rescope(scope: string)

  predicate Enabled(layers: seq<Layer>, op: Op) {
    match op
    case Define(l, _, _, first, _, _) => l < |layers| && (first.Some? ==> Fits(first.value.0, first.value.1))
    case Leave => |layers| > 1
    case _ => |layers| > 0
  }

  function Performed(num: Numbers, layers: seq<Layer>, op: Op): Done
    requires Enabled(layers, op)
  {
    match op
    case Equals(names, value) => AssignAll(num, layers, names, value)
    case ArithEquals(name, result) => Assign(num, layers, name, result)
    case PlusPlus(names) => IncrementAll(layers, names, 1)
    case MinusMinus(names) => IncrementAll(layers, names, -1)
    case Vector(name, member, update) => UpdateVector(num, layers, name, member, update)
    case Define(l, name, varType, first, constant, scopes) => Declare(layers, l, name, varType, first, constant, scopes)
    case Enter(scope) => Done(layers + [EMPTY.(scope := scope)], None)
    case Leave => Done(layers[..|layers| - 1], None)
    case Rescope(scope) => Done(layers[|layers| - 1 := layers[|layers| - 1].(scope := scope)], None)
  }

  function Apply(num: Numbers, layers: seq<Layer>, op: Op): seq<Layer>
    requires Enabled(layers, op)
  {
    Performed(num, layers, op).layers
  }

  // ---- The class ----

  class Variables {
    var layers: seq<Layer>

    constructor ()
      ensures layers == [EMPTY]
    {
      layers := [EMPTY];
    }

    method AddLayer(scope: string)
      modifies this
      ensures layers == old(layers) + [EMPTY.(scope := scope)]
    {
      layers := layers + [EMPTY.(scope := scope)];
    }

    /** find: the loop from the innermost layer out. */
    method Find(name: string) returns (found: Option<nat>)
      ensures found == FindVar(layers, name)
    {
      var l := |layers|;
      assert layers[..l] == layers;
      while l > 0
        invariant l <= |layers|
        invariant FindVar(layers, name) == FindVar(layers[..l], name)
      {
        l := l - 1;
        assert layers[..l + 1][..l] == layers[..l];
        if name in layers[l].typeOf {
          return Some(l);
        }
      }
      found := None;
    }

    method SetVarFromStr(num: Numbers, l: nat, name: string, value: string) returns (failure: Option<Failure>)
      requires l < |layers| && name in layers[l].typeOf
      modifies this
      ensures Done(layers, failure) == SetFromText(num, old(layers), l, name, value)
    {
      hide FromText;
      if name in layers[l].constants {
        return Some(ConstantChange);
      }
      if name in layers[l].privates {
        if layers[|layers| - 1].scope !in InScopes(layers[l], name) {
          return Some(PrivateChange);
        }
      }
      match FromText(num, layers[l].typeOf[name], value)
      case Err(error) => failure := Some(error);
      case Ok(None) => failure := None;
      case Ok(Some((store, cell))) =>
        layers := Write(layers, l, Slot(store, name), cell);
        failure := None;
    }

    /** "=". */
    method SetAll(num: Numbers, names: seq<string>, value: string) returns (failure: Option<Failure>)
      modifies this
      ensures Done(layers, failure) == AssignAll(num, old(layers), names, value)
    {
      hide SetFromText;
      var p := 0;
      while p < |names|
        invariant p <= |names|
        invariant AssignAll(num, old(layers), names, value) == AssignAll(num, layers, names[p..], value)
      {
        assert names[p..][1..] == names[p + 1..];
        var found := Find(names[p]);
        if found.None? {
          return Some(NoVariable);
        }
        failure := SetVarFromStr(num, found.value, names[p], value);
        if failure.Some? {
          return;
        }
        p := p + 1;
      }
      failure := None;
    }

    /** "++" and "--". */
    method StepAll(names: seq<string>, step: int) returns (failure: Option<Failure>)
      modifies this
      ensures Done(layers, failure) == IncrementAll(old(layers), names, step)
    {
      hide Stepped;
      var p := 0;
      while p < |names|
        invariant p <= |names|
        invariant IncrementAll(old(layers), names, step) == IncrementAll(layers, names[p..], step)
      {
        assert names[p..][1..] == names[p + 1..];
        var found := Find(names[p]);
        if found.None? {
          return Some(NoVariable);
        }
        var l := found.value;
        if names[p] in layers[l].constants {
          return Some(ConstantChange);
        } else if names[p] in layers[l].privates {
          if layers[|layers| - 1].scope !in InScopes(layers[l], names[p]) {
            return Some(PrivateChange);
          }
        }
        match Stepped(layers[l], layers[l].typeOf[names[p]], names[p], step) {
          case Err(error) => return Some(error);
          case Ok(None) =>
          case Ok(Some((store, cell))) => layers := Write(layers, l, Slot(store, names[p]), cell);
        }
        p := p + 1;
      }
      failure := None;
    }

    /** std::vector.push_back, set, pop_back and erase; doubles are pushed one by one. */
    method ChangeVector(num: Numbers, name: string, member: bool, update: VectorUpdate)
      returns (failure: Option<Failure>)
      modifies this
      ensures Done(layers, failure) == UpdateVector(num, old(layers), name, member, update)
    {
      hide PushDoubles, FindVar, UpdateTexts;
      var found := Find(name);
      if found.None? {
        return Some(NoVariable);
      }
      var l, target := found.value, Target(name, member);
      FoundDeclares(layers, name);
      if name in layers[l].constants {
        return Some(ConstantChange);
      }
      if layers[l].typeOf[name] == "std::vector<double>" {
        var doubles;
        if update.PushBack? {
          var bad;
          doubles, bad := PushEach(num, DoublesOf(layers[l], target), update.values);
          failure := if bad then Some(NotConvertible) else None;
        } else {
          var updated := UpdateDoubles(num, DoublesOf(layers[l], target), update);
          doubles, failure := updated.0, updated.1;
        }
        layers := Write(layers, l, Slot(DoubVecs, target), DoubleList(doubles));
      } else if layers[l].typeOf[name] == STRINGS {
        var updated := UpdateTexts(TextsOf(layers[l], target), |DoublesOf(layers[l], target)|, update);
        layers := Write(layers, l, Slot(StrVecs, target), TextList(updated.0));
        failure := updated.1;
      } else {
        failure := Some(NoOperator);
      }
    }

    /** Any of the operations. */
    method Perform(num: Numbers, op: Op) returns (failure: Option<Failure>)
      requires Enabled(layers, op)
      modifies this
      ensures Done(layers, failure) == Performed(num, old(layers), op)
    {
      hide FindVar, AssignAll, IncrementAll, UpdateVector, SetFromText, Declare;
      match op
      case Equals(names, value) =>
        failure := SetAll(num, names, value);
      case ArithEquals(name, result) =>
        var found := Find(name);
        if found.None? {
          return Some(NoVariable);
        }
        FoundDeclares(layers, name);
        failure := SetVarFromStr(num, found.value, name, result);
      case PlusPlus(names) =>
        failure := StepAll(names, 1);
      case MinusMinus(names) =>
        failure := StepAll(names, -1);
      case Vector(name, member, update) =>
        failure := ChangeVector(num, name, member, update);
      case Define(l, name, varType, first, constant, scopes) =>
        var done := Declare(layers, l, name, varType, first, constant, scopes);
        layers, failure := done.layers, done.failure;
      case Enter(scope) =>
        AddLayer(scope);
        failure := None;
      case Leave =>
        layers, failure := layers[..|layers| - 1], None;
      case Rescope(scope) =>
        layers, failure := layers[|layers| - 1 := layers[|layers| - 1].(scope := scope)], None;
    }
  }

  lemma FoundDeclares(layers: seq<Layer>, name: string)
    ensures FindVar(layers, name).Some? ==>
              FindVar(layers, name).value < |layers| && name in layers[FindVar(layers, name).value].typeOf
  {
  }

  method PushEach(num: Numbers, start: seq<real>, values: seq<string>) returns (doubles: seq<real>, bad: bool)
    ensures (doubles, bad) == PushDoubles(num, start, values)
  {
    doubles, bad := start, false;
    var v := 0;
    while v < |values|
      invariant v <= |values| && !bad
      invariant PushDoubles(num, start, values) == PushDoubles(num, doubles, values[v..])
    {
      assert values[v..][1..] == values[v + 1..];
      if !num.isDouble(values[v]) {
        return doubles, true;
      }
      doubles := doubles + [num.strtod(values[v])];
      v := v + 1;
    }
  }
}
