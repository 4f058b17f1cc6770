/**
 What a variable reads as after it was written: get_double_from_var against the two setters
 and against ++ and --.
 */
module VariableValues {
  import opened GuardedStore
  import opened Results
  import opened Variables

  predicate IsNumeric(varType: string) {
    || varType == "std::bool" || varType == "std::int" || varType == "std::double" || varType == "std::llint"
    || varType == "bool" || varType == "int" || varType == "double"
  }

  /** get_double_from_var. */
  function ReadDouble(layer: Layer, varType: string, name: string): Option<real> {
    if varType == "std::bool" then
      var cell := Get(layer, Bools, name); if cell.Flag? then Some(if cell.flag then 1.0 else 0.0) else None
    else if varType == "std::int" then
      var cell := Get(layer, Ints, name); if cell.Int? then Some(cell.number as real) else None
    else if varType == "std::llint" then
      var cell := Get(layer, Llints, name); if cell.Int? then Some(cell.number as real) else None
    else if varType == "std::double" || varType == "bool" || varType == "int" || varType == "double" then
      var cell := Get(layer, Doubles, name); if cell.Double? then Some(cell.double) else None
    else None
  }

  /** A number as a variable of a type holds it: truth for bools, toward zero for integers, itself for doubles. */
  function Held(varType: string, x: real): real {
    if varType == "std::bool" || varType == "bool" then if x != 0.0 then 1.0 else 0.0
    else if varType == "std::double" || varType == "double" then x
    else Trunc(x) as real
  }

  /** The number a text stands for; an integer text is read as one except by doubles. */
  function NumberOf(num: Numbers, varType: string, value: string): real {
    if num.isInt(value) && varType != "std::double" && varType != "double" then num.atoi(value) as real
    else num.strtod(value)
  }

  /** Decimal text given to a std::llint goes to another store. */
  predicate IsLost(num: Numbers, varType: string, value: string) {
    varType == "std::llint" && !num.isInt(value)
  }

  /**
   A number assigned as text reads back as the type holds it; only decimal text assigned to a
   std::llint is lost: the assignment succeeds and the variable keeps its value.
   */
  lemma AssignedNumberReadsBack(num: Numbers, layers: seq<Layer>, name: string, value: string, l: nat)
    requires FindVar(layers, name) == Some(l) && l < |layers| && name in layers[l].typeOf
               && IsNumeric(layers[l].typeOf[name])
    requires Assign(num, layers, name, value).failure.None?
    ensures var varType := layers[l].typeOf[name];
            ReadDouble(Assign(num, layers, name, value).layers[l], varType, name) ==
              if IsLost(num, varType, value) then ReadDouble(layers[l], varType, name)
              else Some(Held(varType, NumberOf(num, varType, value)))
  {
    hide FindVar, Guard, Write, ReadDouble, FromText;
    var varType := layers[l].typeOf[name];
    NumberFromText(num, varType, value);
    var (store, cell) := FromText(num, varType, value).value.value;
    WriteReads(layers, l, store, name, cell, varType);
  }

  /** The cell a numeric type reads. */
  function NumericStore(varType: string): Store
    requires IsNumeric(varType)
  {
    if varType == "std::bool" then Bools
    else if varType == "std::int" then Ints
    else if varType == "std::llint" then Llints
    else Doubles
  }

  function CellNumber(cell: Cell): Option<real> {
    match cell
    case Flag(flag) => Some(if flag then 1.0 else 0.0)
    case Int(number) => Some(number as real)
    case Double(double) => Some(double)
    case _ => None
  }

  lemma WriteReads(layers: seq<Layer>, l: nat, store: Store, name: string, cell: Cell, varType: string)
    requires l < |layers| && IsNumeric(varType)
    ensures var after := Write(layers, l, Slot(store, name), cell);
            && (store == NumericStore(varType) && Fits(store, cell) ==>
                ReadDouble(after[l], varType, name) == CellNumber(cell))
            && (store != NumericStore(varType) ==>
                ReadDouble(after[l], varType, name) == ReadDouble(layers[l], varType, name))
  {
    var after := Write(layers, l, Slot(store, name), cell);
    assert forall s: Store :: Get(after[l], s, name) == if s == store then cell else Get(layers[l], s, name);
  }

  /** Converting text for a numeric type, when it can be converted. */
  lemma NumberFromText(num: Numbers, varType: string, value: string)
    requires IsNumeric(varType) && FromText(num, varType, value).Ok?
    ensures var r := FromText(num, varType, value);
            && r.value.Some?
            && var (store, cell) := r.value.value;
               if IsLost(num, varType, value) then store == Ints
               else store == NumericStore(varType) && Fits(store, cell)
                    && CellNumber(cell) == Some(Held(varType, NumberOf(num, varType, value)))
  {
    HoldsIntegers(num.atoi(value));
    NotStd(varType);
  }

  lemma NotStd(varType: string)
    ensures varType == "double" || varType == "int" || varType == "bool" ==>
              !(|varType| >= 5 && varType[..5] == "std::")
  {
    if varType == "double" {
      assert varType[..5][0] == 'd';
    }
  }

  lemma HoldsIntegers(n: int)
    ensures Trunc(n as real) == n
  {
  }

  /** What a double becomes in a variable of a type; toText is std::to_string. */
  function FromDouble(toText: real -> string, varType: string, value: real): Result<Option<(Store, Cell)>, Failure> {
    if varType == "std::bool" then Ok(Some((Bools, Flag(value != 0.0))))
    else if varType == "std::int" then Ok(Some((Ints, Int(Trunc(value)))))
    else if varType == "std::double" then Ok(Some((Doubles, Double(value))))
    else if varType == "std::char" then Ok(Some((Chars, Char(if toText(value) == "" then '\0' else toText(value)[0]))))
    else if varType == "std::string" then Ok(Some((Strings, Text(toText(value)))))
    else if varType == "std::llint" then Ok(Some((Llints, Int(Trunc(value)))))
    else if |varType| >= 5 && varType[..5] == "std::" then Ok(None)
    else if varType == "bool" then Ok(Some((Doubles, Double(if value != 0.0 then 1.0 else 0.0))))
    else if varType == "int" then Ok(Some((Doubles, Double(Trunc(value) as real))))
    else if varType == "double" then Ok(Some((Doubles, Double(value))))
    else if varType == "char" then Ok(Some((Strings, Text(if toText(value) == "" then "" else [toText(value)[0]]))))
    else if varType == "string" then Ok(Some((Strings, Text(toText(value)))))
    else Err(NotConvertible)
  }

  /** set_var_from_double on a variable that was found. */
  function SetFromDouble(toText: real -> string, layers: seq<Layer>, l: nat, name: string, value: real): (r: Done)
    requires l < |layers| && name in layers[l].typeOf
  {
    if Guard(layers, l, name).Some? then Done(layers, Guard(layers, l, name))
    else
      match FromDouble(toText, layers[l].typeOf[name], value)
      case Err(failure) => Done(layers, Some(failure))
      case Ok(None) => Done(layers, None)
      case Ok(Some((store, cell))) => Done(Write(layers, l, Slot(store, name), cell), None)
  }

  /** It makes the same checks as assignment: only permitted variables change, the innermost of their name. */
  lemma SetFromDoubleIsGuarded(toText: real -> string, layers: seq<Layer>, l: nat, name: string, value: real)
    requires FindVar(layers, name) == Some(l) && l < |layers| && name in layers[l].typeOf
    ensures Guarded(layers, SetFromDouble(toText, layers, l, name, value).layers)
  {
    hide FromDouble, Guarded, FindVar;
    GuardedSame(layers);
    if Guard(layers, l, name) == None {
      match FromDouble(toText, layers[l].typeOf[name], value)
      case Ok(Some((store, cell))) => WriteIsGuarded(layers, l, store, name, cell);
      case _ =>
    }
  }

  /** A double written reads back as the type holds it. */
  lemma DoubleReadsBack(toText: real -> string, layers: seq<Layer>, l: nat, name: string, value: real)
    requires l < |layers| && name in layers[l].typeOf && IsNumeric(layers[l].typeOf[name])
    requires SetFromDouble(toText, layers, l, name, value).failure.None?
    ensures var varType := layers[l].typeOf[name];
            ReadDouble(SetFromDouble(toText, layers, l, name, value).layers[l], varType, name) ==
                Some(Held(varType, value))
  {
    hide Guard, Write, ReadDouble, FromDouble;
    var varType := layers[l].typeOf[name];
    NumberFromDouble(toText, varType, value);
    var (store, cell) := FromDouble(toText, varType, value).value.value;
    WriteReads(layers, l, store, name, cell, varType);
  }

  lemma NumberFromDouble(toText: real -> string, varType: string, value: real)
    requires IsNumeric(varType)
    ensures var r := FromDouble(toText, varType, value);
            && r.Ok? && r.value.Some?
            && var (store, cell) := r.value.value;
               store == NumericStore(varType) && Fits(store, cell) && CellNumber(cell) == Some(Held(varType, value))
  {
    NotStd(varType);
  }

  /** A bool holds truth. */
  predicate HoldsTruth(layer: Layer, varType: string, name: string) {
    varType == "bool" ==> ReadDouble(layer, varType, name) == Some(0.0) || ReadDouble(layer, varType, name) == Some(1.0)
  }

  lemma StepReads(layers: seq<Layer>, name: string, l: nat, step: int)
    requires FindVar(layers, name) == Some(l) && l < |layers| && name in layers[l].typeOf
               && IsNumeric(layers[l].typeOf[name])
    requires Increment(layers, name, step).failure.None? && ReadDouble(layers[l], layers[l].typeOf[name], name).Some?
    requires HoldsTruth(layers[l], layers[l].typeOf[name], name)
    ensures var varType, after := layers[l].typeOf[name], Increment(layers, name, step).layers;
            var x := ReadDouble(layers[l], varType, name).value;
            ReadDouble(after[l], varType, name) ==
              Some(if varType == "std::bool" || varType == "bool" then 1.0 - x else x + step as real)
  {
    hide FindVar, Guard, Write, Stepped, ReadDouble;
    var varType := layers[l].typeOf[name];
    NumberStepped(layers[l], varType, name, step);
    var (store, cell) := Stepped(layers[l], varType, name, step).value.value;
    WriteReads(layers, l, store, name, cell, varType);
  }

  lemma NumberStepped(layer: Layer, varType: string, name: string, step: int)
    requires IsNumeric(varType) && ReadDouble(layer, varType, name).Some? && HoldsTruth(layer, varType, name)
    ensures var r, x := Stepped(layer, varType, name, step), ReadDouble(layer, varType, name).value;
            && r.Ok? && r.value.Some?
            && var (store, cell) := r.value.value;
               store == NumericStore(varType) && Fits(store, cell)
               && CellNumber(cell) ==
                  Some(if varType == "std::bool" || varType == "bool" then 1.0 - x else x + step as real)
  {
    NotStd(varType);
  }

  const MAX_WHOLE := 9007199254740992.0

  /** A whole number small enough that doubles around it are exact: at most two to the 53rd. */
  predicate Whole(x: real) {
    x == x.Floor as real && -MAX_WHOLE <= x <= MAX_WHOLE
  }

  /** Types stepped in integers or turned over; the others are stepped in doubles. */
  predicate StepsInDoubles(varType: string) {
    varType == "std::double" || varType == "int" || varType == "double"
  }

  /**
   ++ and -- in either order leave an integer as it was, and turn a bool over and back; what is
   stored in a double too, when it is a whole number before and after the first step.
   */
  lemma StepsCancel(layers: seq<Layer>, name: string, l: nat, step: int)
    requires FindVar(layers, name) == Some(l) && l < |layers| && name in layers[l].typeOf
               && IsNumeric(layers[l].typeOf[name])
    requires Increment(layers, name, step).failure.None? && ReadDouble(layers[l], layers[l].typeOf[name], name).Some?
    requires HoldsTruth(layers[l], layers[l].typeOf[name], name)
    requires StepsInDoubles(layers[l].typeOf[name]) ==>
               var x := ReadDouble(layers[l], layers[l].typeOf[name], name).value; Whole(x) && Whole(x + step as real)
    ensures var once := Increment(layers, name, step).layers;
            var twice := Increment(once, name, -step);
            && twice.failure.None?
            && ReadDouble(twice.layers[l], layers[l].typeOf[name], name) ==
                ReadDouble(layers[l], layers[l].typeOf[name], name)
  {
    hide *;
    SecondIsPermitted(layers, name, l, step);
    StepReads(layers, name, l, step);
    StepReads(Increment(layers, name, step).layers, name, l, -step);
  }

  lemma OnceStepped(layers: seq<Layer>, name: string, l: nat, step: int)
    requires FindVar(layers, name) == Some(l) && l < |layers| && name in layers[l].typeOf
    requires Increment(layers, name, step).failure.None?
    ensures var once := Increment(layers, name, step).layers;
            && |once| == |layers| && FindVar(once, name) == Some(l) && once[l].typeOf == layers[l].typeOf
            && Guard(once, l, name) == None
  {
    PermittedStep(layers, name, l, step);
    IncrementIsGuarded(layers, name, step);
    hide *;
    GuardedTypes(layers, Increment(layers, name, step).layers, name, l);
  }

  lemma SecondIsPermitted(layers: seq<Layer>, name: string, l: nat, step: int)
    requires FindVar(layers, name) == Some(l) && l < |layers| && name in layers[l].typeOf
               && IsNumeric(layers[l].typeOf[name])
    requires Increment(layers, name, step).failure.None? && ReadDouble(layers[l], layers[l].typeOf[name], name).Some?
    requires HoldsTruth(layers[l], layers[l].typeOf[name], name)
    ensures var once := Increment(layers, name, step).layers;
            && |once| == |layers| && FindVar(once, name) == Some(l) && once[l].typeOf == layers[l].typeOf
            && Increment(once, name, -step).failure.None?
            && ReadDouble(once[l], layers[l].typeOf[name], name).Some?
            && HoldsTruth(once[l], layers[l].typeOf[name], name)
  {
    hide *;
    OnceStepped(layers, name, l, step);
    var once, varType := Increment(layers, name, step).layers, layers[l].typeOf[name];
    NumericSteps(once[l], varType, name, -step);
    SecondStep(once, name, l, varType, -step);
    StepReads(layers, name, l, step);
    StillTruth(layers[l], once[l], varType, name, step);
  }

  lemma PermittedStep(layers: seq<Layer>, name: string, l: nat, step: int)
    requires FindVar(layers, name) == Some(l) && l < |layers| && name in layers[l].typeOf
    requires Increment(layers, name, step).failure.None?
    ensures Guard(layers, l, name) == None
  {
    hide FindVar, Stepped, Guard;
  }

  lemma StillTruth(before: Layer, after: Layer, varType: string, name: string, step: int)
    requires HoldsTruth(before, varType, name) && ReadDouble(before, varType, name).Some?
    requires varType == "bool" ==>
               ReadDouble(after, varType, name) == Some(1.0 - ReadDouble(before, varType, name).value)
    ensures HoldsTruth(after, varType, name)
  {
    hide ReadDouble;
  }

  lemma GuardedTypes(before: seq<Layer>, after: seq<Layer>, name: string, l: nat)
    requires Guarded(before, after) && FindVar(before, name) == Some(l) && l < |before|
    ensures |after| == |before| && FindVar(after, name) == Some(l) && SameFlags(before[l], after[l])
    ensures after[l].typeOf == before[l].typeOf
    ensures Guard(after, l, name) == Guard(before, l, name)
  {
    assert forall k | 0 <= k < |before| :: SameFlags(before[k], after[k]);
    FindBySame(before, after, name);
  }

  lemma NumericSteps(layer: Layer, varType: string, name: string, step: int)
    requires IsNumeric(varType)
    ensures Stepped(layer, varType, name, step).Ok?
  {
  }

  lemma SecondStep(once: seq<Layer>, name: string, l: nat, varType: string, step: int)
    requires FindVar(once, name) == Some(l) && l < |once| && name in once[l].typeOf && once[l].typeOf[name] == varType
    requires Guard(once, l, name) == None && Stepped(once[l], varType, name, step).Ok?
    ensures Increment(once, name, step).failure.None?
  {
    hide FindVar, Stepped, Guard;
  }
}
