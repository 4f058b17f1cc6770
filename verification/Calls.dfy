/**
 Control flow over the layer stack: calls of user functions, which keep their params and
 options in layer 0 and save the caller's, and the blocks of if, while, do-while and for.
 Which branch is taken and how often a loop turns is given; what the layers become is not.
 */
module Calls {
  import opened FunctionScopes
  import opened Results
  import opened Variables

  /** Code as it is executed. A loop is the list of its turns; while and do-while have nothing to do after a turn. */
  datatype Code =
    | Nothing
    | Then(first: Code, rest: Code)
    | Look
    | Do(op: Op)
    | CallFn(options: seq<string>, params: seq<string>, access: Option<set<string>>, byDefault: bool, name: string,
        body: Code)
    | BreakOut
    | ReturnOut
    | ExitOut
    | ContinueOut
    | Fail
    | If(scoped: bool, block: Code)
    | While(scoped: bool, turns: Turns)
    | For(scoped: bool, before: Code, turns: Turns, after: Code)

  datatype Turns = Stop | BadCondition | Turn(block: Code, step: Code, rest: Turns)

  /** How code ends: NSM_BREAK, NSM_RET, NSM_EXIT, NSM_CONT, or an error. */
  datatype Outcome = Normal | Broke | Returned | Exited | Continued | Failed

  /** The options and params a piece of code sees. */
  datatype Seen = Seen(options: seq<string>, params: seq<string>)

  datatype Ran = Ran(layers: seq<Layer>, seen: seq<Seen>, outcome: Outcome)

  // ---- Calls ----

  /** What a call keeps of one of the caller's variables in locals of its own. */
  datatype Saved = Saved(varType: string, texts: seq<string>, constant: bool, isPrivate: bool)

  function Save(layer: Layer, name: string): Saved {
    if name in layer.typeOf then
      Saved(layer.typeOf[name], if layer.typeOf[name] == STRINGS then TextsOf(layer, name) else [],
            name in layer.constants, name in layer.privates)
    else Saved("", [], false, false)
  }

  /** Defines options or params for a call, with a backup of the caller's when that is a vector of strings. */
  function Bind(layer: Layer, name: string, value: seq<string>): Layer {
    var values :=
      if name in layer.typeOf && layer.typeOf[name] == STRINGS then
        layer.values[Slot(StrVecs, "__" + name) := TextList(TextsOf(layer, name))]
      else layer.values;
    layer.(typeOf := layer.typeOf[name := STRINGS],
           values := values[Slot(StrVecs, name) := TextList(value)],
           constants := layer.constants + {name})
  }

  /** Reverts options or params after a call. */
  function Revert(layer: Layer, name: string, saved: Saved): Layer {
    var flags := layer.(constants := if saved.constant then layer.constants else layer.constants - {name},
                        privates := if saved.isPrivate then layer.privates else layer.privates - {name});
    if saved.varType == STRINGS then
      flags.(values := flags.values[Slot(StrVecs, name) := TextList(saved.texts)] - {Slot(StrVecs, "__" + name)})
    else
      flags.(values := flags.values - {Slot(StrVecs, name)},
             typeOf := if saved.varType == "" then flags.typeOf - {name} else flags.typeOf[name := saved.varType])
  }

  function Pushed(layers: seq<Layer>, scoped: bool): seq<Layer>
    requires |layers| > 0
  {
    if scoped then layers + [EMPTY.(scope := layers[|layers| - 1].scope)] else layers
  }

  function Popped(layers: seq<Layer>, scoped: bool): seq<Layer>
    requires |layers| > 0
  {
    if scoped then layers[..|layers| - 1] else layers
  }

  /** The layers as a function's body finds them. */
  function Entered(layers: seq<Layer>, options: seq<string>, params: seq<string>, scoped: bool,
                   scope: string): (r: seq<Layer>)
    requires |layers| > 0
    ensures |r| == |layers| + if scoped then 1 else 0
  {
    var top := |layers| - 1;
    var framed := if scoped then layers + [EMPTY.(scope := scope)] else layers[top := layers[top].(scope := scope)];
    framed[0 := Bind(Bind(framed[0], "options", options), "params", params)]
  }

  /** The layers as the caller finds them again. */
  function Left(before: seq<Layer>, after: seq<Layer>, scoped: bool): seq<Layer>
    requires |before| > 0 && |after| >= |before| + if scoped then 1 else 0
  {
    var top := |before| - 1;
    var unframed := if scoped then after[..|after| - 1] else after[top := after[top].(scope := before[top].scope)];
    unframed[0 := Revert(Revert(unframed[0], "options", Save(before[0], "options")), "params",
        Save(before[0], "params"))]
  }

  /** A private function can be called only while a scope it is private to is on top. */
  predicate MayCall(layers: seq<Layer>, access: Option<set<string>>)
    requires |layers| > 0
  {
    access.None? || layers[|layers| - 1].scope in access.value
  }

  /** Whether a call gets a layer of its own: the last of the options s and !s decides, or else the default. */
  function ScopedBy(options: seq<string>, byDefault: bool): bool {
    if options == [] then byDefault
    else
      var last := options[|options| - 1];
      if last == "s" then true else if last == "!s" then false else ScopedBy(options[..|options| - 1], byDefault)
  }

  function Scoped(code: Code): bool
    requires code.CallFn?
  {
    ScopedBy(code.options, code.byDefault)
  }

  /** The scope put on top for the body. */
  function ScopeOf(code: Code): string
    requires code.CallFn?
  {
    FunctionScope(code.name, Scoped(code))
  }

  // ---- Running code ----

  /** Assignments, increments, vector updates and declarations. */
  predicate IsStatement(op: Op) {
    !op.Enter? && !op.Leave? && !op.Rescope?
  }

  /** A continue only ends the text it is in. */
  function EndText(r: Ran): Ran {
    if r.outcome == Continued then r.(outcome := Normal) else r
  }

  function Earlier(seen: seq<Seen>, r: Ran): Ran {
    r.(seen := seen + r.seen)
  }

  function Run(num: Numbers, layers: seq<Layer>, code: Code): (r: Ran)
    requires |layers| > 0
    ensures |r.layers| >= |layers|
    decreases code, 1
  {
    match code
    case Nothing => Ran(layers, [], Normal)
    case Then(first, rest) =>
      var r := Run(num, layers, first);
      if r.outcome != Normal then r else Earlier(r.seen, Run(num, r.layers, rest))
    case Look => Ran(layers, [Seen(TextsOf(layers[0], "options"), TextsOf(layers[0], "params"))], Normal)
    case Do(op) =>
      if !IsStatement(op) || !Enabled(layers, op) then Ran(layers, [], Failed)
      else
        var done := Performed(num, layers, op);
        Ran(done.layers, [], if done.failure.Some? then Failed else Normal)
    case CallFn(options, params, access, byDefault, name, body) =>
      if !MayCall(layers, access) then Ran(layers, [], Failed)
      else
        var scoped := ScopedBy(options, byDefault);
        var entered := Entered(layers, options, params, scoped, FunctionScope(name, scoped));
        Return(layers, EndText(Run(num, entered, body)), scoped)
    case BreakOut => Ran(layers, [], Broke)
    case ReturnOut => Ran(layers, [], Returned)
    case ExitOut => Ran(layers, [], Exited)
    case ContinueOut => Ran(layers, [], Continued)
    case Fail => Ran(layers, [], Failed)
    case If(scoped, block) =>
      var r := EndText(Run(num, Pushed(layers, scoped), block));
      r.(layers := Popped(r.layers, scoped))
    case While(scoped, turns) => RunTurns(num, layers, scoped, turns)
    case For(_, _, _, _) => RunFor(num, layers, code)
  }

  /** The end of a call: an error leaves everything as it is; any other end of the body is the end of the call. */
  function Return(layers: seq<Layer>, r: Ran, scoped: bool): Ran
    requires |layers| > 0 && |r.layers| >= |layers| + if scoped then 1 else 0
  {
    if r.outcome == Failed then r else Ran(Left(layers, r.layers, scoped), r.seen, Normal)
  }

  /** for: its layer stays when it is left by anything but break. */
  function RunFor(num: Numbers, layers: seq<Layer>, code: Code): (r: Ran)
    requires |layers| > 0 && code.For?
    ensures |r.layers| >= |layers|
    decreases code, 0
  {
    var r := EndText(Run(num, Pushed(layers, code.scoped), code.before));
    if r.outcome != Normal then r.(outcome := Failed)
    else
      var t := Earlier(r.seen, RunTurns(num, r.layers, code.scoped, code.turns));
      if t.outcome != Normal then t
      else
        var a := Earlier(t.seen, EndText(Run(num, t.layers, code.after)));
        if a.outcome != Normal then a.(outcome := Failed) else a.(layers := Popped(a.layers, code.scoped))
  }

  /** One turn of a loop: its block in a layer of its own, then the code after it. */
  function RunTurn(num: Numbers, layers: seq<Layer>, scoped: bool, turn: Turns): (r: Ran)
    requires |layers| > 0 && turn.Turn?
    ensures |r.layers| >= |layers|
    decreases turn, 0
  {
    var r := EndText(Run(num, Pushed(layers, scoped), turn.block));
    var b := r.(layers := Popped(r.layers, scoped));
    if b.outcome != Normal then b
    else
      var s := Earlier(b.seen, EndText(Run(num, b.layers, turn.step)));
      if s.outcome != Normal then s.(outcome := Failed) else s
  }

  function RunTurns(num: Numbers, layers: seq<Layer>, scoped: bool, turns: Turns): (r: Ran)
    requires |layers| > 0
    ensures |r.layers| >= |layers|
    decreases turns, 1
  {
    match turns
    case Stop => Ran(layers, [], Normal)
    case BadCondition => Ran(layers, [], Failed)
    case Turn(_, _, rest) =>
      var t := RunTurn(num, layers, scoped, turns);
      if t.outcome == Broke then t.(outcome := Normal)
      else if t.outcome != Normal then t
      else Earlier(t.seen, RunTurns(num, t.layers, scoped, rest))
  }

  lemma EarlierTwice(a: seq<Seen>, b: seq<Seen>, r: Ran)
    ensures Earlier(a, Earlier(b, r)) == Earlier(a + b, r)
    ensures Earlier([], r) == r
  {
    assert a + (b + r.seen) == a + b + r.seen;
  }

  lemma ScopeKeepsSaves(before: seq<Layer>, framed: seq<Layer>, scoped: bool, scope: string)
    requires |before| > 0
    requires framed == if scoped then before + [EMPTY.(scope := scope)]
                       else before[|before| - 1 := before[|before| - 1].(scope := scope)]
    ensures Save(framed[0], "options") == Save(before[0], "options")
              && Save(framed[0], "params") == Save(before[0], "params")
  {
  }

  lemma BindKeepsOther(layer: Layer, value: seq<string>)
    ensures Save(Bind(layer, "options", value), "params") == Save(layer, "params")
  {
  }

  /** for, from how its parts end. */
  lemma RunForIs(num: Numbers, layers: seq<Layer>, code: Code)
    requires |layers| > 0 && code.For?
    ensures var r := EndText(Run(num, Pushed(layers, code.scoped), code.before));
            var t := RunTurns(num, r.layers, code.scoped, code.turns);
            RunFor(num, layers, code) ==
            if r.outcome != Normal then r.(outcome := Failed)
            else if t.outcome != Normal then Earlier(r.seen, t)
            else
              var a := EndText(Run(num, t.layers, code.after));
              Earlier(r.seen + t.seen,
                      if a.outcome != Normal then a.(outcome := Failed)
                      else a.(layers := Popped(a.layers, code.scoped)))
  {
    hide Run, RunTurns, Pushed, Popped;
  }

  // ---- The interpreter ----

  /** The part of Parser that changes vars.layers as it executes. */
  class Interpreter {
    const num: Numbers
    const vars: Variables

    constructor (num: Numbers)
      ensures this.num == num && fresh(vars) && vars.layers == [EMPTY]
    {
      this.num := num;
      vars := new Variables();
    }

    /** Backs up one of the caller's variables and defines the call's own. */
    method Define(name: string, value: seq<string>) returns (saved: Saved)
      requires |vars.layers| > 0
      modifies vars
      ensures saved == Save(old(vars.layers)[0], name)
      ensures vars.layers == old(vars.layers)[0 := Bind(old(vars.layers)[0], name, value)]
    {
      var global := vars.layers[0];
      saved := Saved("", [], false, false);
      if name in global.typeOf {
        saved := saved.(constant := name in global.constants, isPrivate := name in global.privates,
            varType := global.typeOf[name]);
        if global.typeOf[name] == STRINGS {
          saved := saved.(texts := TextsOf(global, name));
          global := global.(values := global.values[Slot(StrVecs, "__" + name) := TextList(saved.texts)]);
        }
        global := global.(typeOf := global.typeOf - {name});
      }
      global := global.(typeOf := global.typeOf[name := STRINGS]);
      global := global.(values := global.values[Slot(StrVecs, name) := TextList(value)]);
      global := global.(constants := global.constants + {name});
      assert global.typeOf == vars.layers[0].typeOf[name := STRINGS];
      vars.layers := vars.layers[0 := global];
    }

    /** Gives one of the caller's variables back. */
    method Restore(name: string, saved: Saved)
      requires |vars.layers| > 0
      modifies vars
      ensures vars.layers == old(vars.layers)[0 := Revert(old(vars.layers)[0], name, saved)]
    {
      var global := vars.layers[0];
      if !saved.constant {
        global := global.(constants := global.constants - {name});
      }
      if !saved.isPrivate {
        global := global.(privates := global.privates - {name});
      }
      if saved.varType == STRINGS {
        var values := global.values[Slot(StrVecs, name) := TextList(saved.texts)];
        global := global.(values := values - {Slot(StrVecs, "__" + name)});
      } else {
        global := global.(values := global.values - {Slot(StrVecs, name)});
        if saved.varType == "" {
          global := global.(typeOf := global.typeOf - {name});
        } else {
          global := global.(typeOf := global.typeOf[name := saved.varType]);
        }
      }
      vars.layers := vars.layers[0 := global];
    }

    method Push(scoped: bool)
      requires |vars.layers| > 0
      modifies vars
      ensures vars.layers == Pushed(old(vars.layers), scoped)
      ensures |vars.layers| == |old(vars.layers)| + if scoped then 1 else 0
    {
      if scoped {
        var cScope := vars.layers[|vars.layers| - 1].scope;
        vars.AddLayer(cScope);
      }
    }

    method Pop(scoped: bool)
      requires |vars.layers| > 0
      modifies vars
      ensures vars.layers == Popped(old(vars.layers), scoped)
      ensures |vars.layers| == |old(vars.layers)| - if scoped then 1 else 0
    {
      if scoped {
        vars.layers := vars.layers[..|vars.layers| - 1];
      }
    }

    /** The loop over a call's options. */
    method AddsScope(options: seq<string>, byDefault: bool) returns (addScope: bool)
      ensures addScope == ScopedBy(options, byDefault)
    {
      addScope := byDefault;
      for o := 0 to |options|
        invariant addScope == ScopedBy(options[..o], byDefault)
      {
        assert options[..o + 1][..o] == options[..o];
        if options[o] == "s" {
          addScope := true;
        } else if options[o] == "!s" {
          addScope := false;
        }
      }
      assert options[..|options|] == options;
    }

    /** A call of a user function. */
    method Call(options: seq<string>, params: seq<string>, access: Option<set<string>>, byDefault: bool,
                name: string, body: Code)
      returns (seen: seq<Seen>, outcome: Outcome)
      requires |vars.layers| > 0
      modifies vars
      ensures Ran(vars.layers, seen, outcome) ==
                Run(num, old(vars.layers), CallFn(options, params, access, byDefault, name, body))
      decreases body, 3
    {
      hide Bind, Revert, Save, RunTurns, RunFor, Entered, Left;
      if access.Some? && vars.layers[|vars.layers| - 1].scope !in access.value {
        return [], Failed;
      }
      var scoped := AddsScope(options, byDefault);
      ghost var before := vars.layers;
      var layer, oldScope, savedOptions, savedParams := EnterCall(options, params, scoped, name);
      seen, outcome := Execute(body);
      if outcome == Continued {
        outcome := Normal;
      }
      if outcome == Failed {
        return;
      }
      LeaveCall(before, scoped, layer, oldScope, savedOptions, savedParams);
      outcome := Normal;
    }

    /** The call's own layer or scope, and its params and options. */
    method EnterCall(options: seq<string>, params: seq<string>, scoped: bool, name: string)
      returns (layer: nat, oldScope: string, savedOptions: Saved, savedParams: Saved)
      requires |vars.layers| > 0
      modifies vars
      ensures vars.layers == Entered(old(vars.layers), options, params, scoped, FunctionScope(name, scoped))
      ensures layer == |old(vars.layers)| - 1 && oldScope == old(vars.layers)[layer].scope
      ensures savedOptions == Save(old(vars.layers)[0], "options") && savedParams == Save(old(vars.layers)[0], "params")
    {
      hide Bind, Save;
      layer := |vars.layers| - 1;
      oldScope := vars.layers[layer].scope;
      if scoped {
        vars.AddLayer(name[..LastDot(name) + 1]);
      } else {
        var pos := FindLastOfSpecial(name);
        vars.layers := vars.layers[layer := vars.layers[layer].(scope := name[..pos + 1])];
      }
      ghost var framed := vars.layers;
      ScopeKeepsSaves(old(vars.layers), framed, scoped, FunctionScope(name, scoped));
      savedOptions := Define("options", options);
      BindKeepsOther(framed[0], options);
      savedParams := Define("params", params);
    }

    /** Takes the call's layer or scope off, and gives the caller its params and options back. */
    method LeaveCall(ghost before: seq<Layer>, scoped: bool, layer: nat, oldScope: string, savedOptions: Saved,
                     savedParams: Saved)
      requires |before| > 0 && |vars.layers| >= |before| + if scoped then 1 else 0
      requires layer == |before| - 1 && oldScope == before[layer].scope
      requires savedOptions == Save(before[0], "options") && savedParams == Save(before[0], "params")
      modifies vars
      ensures vars.layers == Left(before, old(vars.layers), scoped)
    {
      hide Revert, Save;
      if scoped {
        vars.layers := vars.layers[..|vars.layers| - 1];
      } else {
        vars.layers := vars.layers[layer := vars.layers[layer].(scope := oldScope)];
      }
      Restore("options", savedOptions);
      Restore("params", savedParams);
    }

    /** Executes code; a text that ends by continue has ended normally. */
    method Execute(code: Code) returns (seen: seq<Seen>, outcome: Outcome)
      requires |vars.layers| > 0
      modifies vars
      ensures Ran(vars.layers, seen, outcome) == Run(num, old(vars.layers), code)
      ensures |vars.layers| >= |old(vars.layers)|
      decreases code, 2
    {
      hide Bind, Revert, Save, Performed, Enabled, Entered, Left;
      seen, outcome := [], Normal;
      match code
      case Nothing =>
      case Then(first, rest) =>
        seen, outcome := Execute(first);
        if outcome == Normal {
          var more;
          more, outcome := Execute(rest);
          seen := seen + more;
        }
      case Look =>
        seen := [Seen(TextsOf(vars.layers[0], "options"), TextsOf(vars.layers[0], "params"))];
      case Do(op) =>
        if !IsStatement(op) || !Enabled(vars.layers, op) {
          outcome := Failed;
        } else {
          var failure := vars.Perform(num, op);
          outcome := if failure.Some? then Failed else Normal;
        }
      case CallFn(options, params, access, byDefault, name, body) =>
        seen, outcome := Call(options, params, access, byDefault, name, body);
      case BreakOut => outcome := Broke;
      case ReturnOut => outcome := Returned;
      case ExitOut => outcome := Exited;
      case ContinueOut => outcome := Continued;
      case Fail => outcome := Failed;
      case If(scoped, block) =>
        Push(scoped);
        seen, outcome := Execute(block);
        Pop(scoped);
        if outcome == Continued {
          outcome := Normal;
        }
      case While(scoped, turns) =>
        seen, outcome := ExecuteTurns(scoped, turns);
      case For(scoped, before, turns, after) =>
        seen, outcome := ExecuteFor(scoped, before, turns, after);
    }

    /** One turn: a layer around the block, and then the code after a turn. */
    method ExecuteTurn(scoped: bool, turn: Turns) returns (seen: seq<Seen>, outcome: Outcome)
      requires |vars.layers| > 0 && turn.Turn?
      modifies vars
      ensures Ran(vars.layers, seen, outcome) == RunTurn(num, old(vars.layers), scoped, turn)
      ensures |vars.layers| >= |old(vars.layers)|
      decreases turn, 1
    {
      hide Run;
      Push(scoped);
      seen, outcome := Execute(turn.block);
      Pop(scoped);
      if outcome != Normal && outcome != Continued {
        return;
      }
      var more;
      more, outcome := Execute(turn.step);
      seen := seen + more;
      outcome := if outcome == Normal || outcome == Continued then Normal else Failed;
    }

    /** The loop of while, do-while and for. */
    method ExecuteTurns(scoped: bool, turns: Turns) returns (seen: seq<Seen>, outcome: Outcome)
      requires |vars.layers| > 0
      modifies vars
      ensures Ran(vars.layers, seen, outcome) == RunTurns(num, old(vars.layers), scoped, turns)
      ensures |vars.layers| >= |old(vars.layers)|
      decreases turns, 2
    {
      hide RunTurn;
      seen := [];
      var left := turns;
      EarlierTwice([], [], RunTurns(num, vars.layers, scoped, turns));
      while left.Turn?
        invariant |vars.layers| >= |old(vars.layers)|
        invariant RunTurns(num, old(vars.layers), scoped, turns) ==
                    Earlier(seen, RunTurns(num, vars.layers, scoped, left))
        invariant left == turns || left < turns
        decreases left
      {
        ghost var t := RunTurn(num, vars.layers, scoped, left);
        var more;
        more, outcome := ExecuteTurn(scoped, left);
        if outcome == Normal {
          EarlierTwice(seen, more, RunTurns(num, vars.layers, scoped, left.rest));
        }
        seen := seen + more;
        if outcome == Broke {
          outcome := Normal;
          return;
        } else if outcome != Normal {
          return;
        }
        left := left.rest;
      }
      outcome := if left.Stop? then Normal else Failed;
    }

    /** for: one layer around all of it, taken off only when the loop ends normally or by break. */
    method ExecuteFor(scoped: bool, before: Code, turns: Turns, after: Code) returns (seen: seq<Seen>, outcome: Outcome)
      requires |vars.layers| > 0
      modifies vars
      ensures Ran(vars.layers, seen, outcome) == RunFor(num, old(vars.layers), For(scoped, before, turns, after))
      ensures |vars.layers| >= |old(vars.layers)|
      decreases For(scoped, before, turns, after), 1
    {
      RunForIs(num, vars.layers, For(scoped, before, turns, after));
      hide Run, RunTurns, RunFor, Pushed, Popped;
      Push(scoped);
      seen, outcome := Execute(before);
      ghost var first := Ran(vars.layers, seen, if outcome == Continued then Normal else outcome);
      assert first == EndText(Run(num, Pushed(old(vars.layers), scoped), before));
      if outcome != Normal && outcome != Continued {
        outcome := Failed;
        return;
      }
      var more;
      more, outcome := ExecuteTurns(scoped, turns);
      seen := seen + more;
      assert Ran(vars.layers, more, outcome) == RunTurns(num, first.layers, scoped, turns);
      if outcome != Normal {
        return;
      }
      more, outcome := Execute(after);
      seen := seen + more;
      if outcome != Normal && outcome != Continued {
        outcome := Failed;
        return;
      }
      Pop(scoped);
      outcome := Normal;
    }
  }
}
