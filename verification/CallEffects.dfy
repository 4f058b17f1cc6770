/**
 What code with calls does to the variables of the layers it starts with. Apart from the names
 calls use in layer 0, a variable keeps its type and flags, and its value changes only by the
 statements executed: so constants never change, and privates only under their scopes or by
 vector updates. The backups calls keep of params and options are written and erased unchecked.
 */
module CallEffects {
  import opened Calls
  import opened FunctionScopes
  import opened CallStack
  import opened GuardedStore
  import opened Results
  import opened Variables

  /** The names calls write in layer 0. */
  predicate IsCallName(name: string) {
    name == "options" || name == "params" || name == "__options" || name == "__params"
  }

  // ---- The statements executed ----

  datatype Statement = Statement(layers: seq<Layer>, op: Op)

  /** The statements code executes, with the layers each finds. */
  function Executed(num: Numbers, layers: seq<Layer>, code: Code): seq<Statement>
    requires |layers| > 0
    decreases code, 1
  {
    match code
    case Then(first, rest) =>
      var r := Run(num, layers, first);
      Executed(num, layers, first) + (if r.outcome == Normal then Executed(num, r.layers, rest) else [])
    case Do(op) => if IsStatement(op) && Enabled(layers, op) then [Statement(layers, op)] else []
    case CallFn(options, params, access, _, _, body) =>
      if MayCall(layers, access) then
        Executed(num, Entered(layers, options, params, Scoped(code), ScopeOf(code)), body)
      else []
    case If(scoped, block) => Executed(num, Pushed(layers, scoped), block)
    case While(scoped, turns) => ExecutedTurns(num, layers, scoped, turns)
    case For(_, _, _, _) => ExecutedFor(num, layers, code)
    case _ => []
  }

  function ExecutedFor(num: Numbers, layers: seq<Layer>, code: Code): seq<Statement>
    requires |layers| > 0 && code.For?
    decreases code, 0
  {
    var pushed := Pushed(layers, code.scoped);
    var r := EndText(Run(num, pushed, code.before));
    Executed(num, pushed, code.before)
    + (if r.outcome != Normal then []
       else
         var t := RunTurns(num, r.layers, code.scoped, code.turns);
         ExecutedTurns(num, r.layers, code.scoped, code.turns)
         + (if t.outcome == Normal then Executed(num, t.layers, code.after) else []))
  }

  function ExecutedTurn(num: Numbers, layers: seq<Layer>, scoped: bool, turn: Turns): seq<Statement>
    requires |layers| > 0 && turn.Turn?
    decreases turn, 0
  {
    var pushed := Pushed(layers, scoped);
    var r := EndText(Run(num, pushed, turn.block));
    Executed(num, pushed, turn.block)
    + (if r.outcome == Normal then Executed(num, Popped(r.layers, scoped), turn.step) else [])
  }

  function ExecutedTurns(num: Numbers, layers: seq<Layer>, scoped: bool, turns: Turns): seq<Statement>
    requires |layers| > 0
    decreases turns, 1
  {
    if !turns.Turn? then []
    else
      var t := RunTurn(num, layers, scoped, turns);
      ExecutedTurn(num, layers, scoped, turns)
      + (if t.outcome == Normal then ExecutedTurns(num, t.layers, scoped, turns.rest) else [])
  }

  // ---- A variable through code ----

  /** The variable is declared as it was, with its flags and scopes. */
  predicate FlagsKept(a: Layer, b: Layer, name: string) {
    && name in a.typeOf && name in b.typeOf && a.typeOf[name] == b.typeOf[name]
    && (name in a.constants <==> name in b.constants) && (name in a.privates <==> name in b.privates)
    && InScopes(a, name) == InScopes(b, name)
  }

  /** The statement leaves the variable of layer l alone. */
  ghost predicate Spares(num: Numbers, d: Statement, l: nat, name: string) {
    && Enabled(d.layers, d.op) && l < |d.layers| && l < |Apply(num, d.layers, d.op)|
    && SameVar(d.layers[l], Apply(num, d.layers, d.op)[l], name)
  }

  /** The statement finds the variable declared as it was. */
  ghost predicate Finds(before: Layer, d: Statement, l: nat, name: string) {
    IsStatement(d.op) && Enabled(d.layers, d.op) && l < |d.layers| && FlagsKept(before, d.layers[l], name)
  }

  /** Flags are kept throughout, and the value unless one of the statements changed it. */
  ghost predicate VarKept(num: Numbers, before: seq<Layer>, after: seq<Layer>, did: seq<Statement>, l: nat,
                          name: string) {
    && l < |before| <= |after| && FlagsKept(before[l], after[l], name)
    && (forall d | d in did :: Finds(before[l], d, l, name))
    && ((forall d | d in did :: Spares(num, d, l, name)) ==> SameVar(before[l], after[l], name))
  }

  lemma KeptThen(num: Numbers, a: seq<Layer>, b: seq<Layer>, c: seq<Layer>, first: seq<Statement>,
                 second: seq<Statement>, l: nat, name: string)
    requires VarKept(num, a, b, first, l, name) && VarKept(num, b, c, second, l, name)
    ensures VarKept(num, a, c, first + second, l, name)
  {
    hide Spares, SameVar, IsStatement, Enabled;
    forall d | d in first + second
      ensures Finds(a[l], d, l, name)
    {
      if d in second {
        assert Finds(b[l], d, l, name);
      }
    }
    if forall d | d in first + second :: Spares(num, d, l, name) {
      assert forall d | d in first :: d in first + second;
      assert forall d | d in second :: d in first + second;
      SameVarThen(a[l], b[l], c[l], name);
    }
  }

  /** No statements, and the layer the same but for its scope. */
  lemma KeptWhere(num: Numbers, before: seq<Layer>, after: seq<Layer>, l: nat, name: string)
    requires l < |before| <= |after| && name in before[l].typeOf
    requires after[l] == before[l] || after[l] == before[l].(scope := after[l].scope)
    ensures VarKept(num, before, after, [], l, name)
  {
  }

  lemma StillDeclared(num: Numbers, before: seq<Layer>, after: seq<Layer>, did: seq<Statement>, l: nat, name: string)
    requires VarKept(num, before, after, did, l, name)
    ensures l < |before| <= |after| && name in after[l].typeOf
  {
    hide Finds, Spares, SameVar;
  }

  lemma StatementKept(num: Numbers, layers: seq<Layer>, op: Op, l: nat, name: string)
    requires IsStatement(op) && Enabled(layers, op) && l < |layers| && name in layers[l].typeOf
    ensures VarKept(num, layers, Performed(num, layers, op).layers, [Statement(layers, op)], l, name)
  {
    var after := Apply(num, layers, op);
    DoneScopes(num, layers, op);
    OpKeepsFlags(num, layers, op, l);
    assert Performed(num, layers, op).layers == after by {
      PerformedIs(num, layers, op);
    }
    hide Apply, SameVar, Enabled, Performed, IsStatement;
    assert Finds(layers[l], Statement(layers, op), l, name);
    if forall d | d in [Statement(layers, op)] :: Spares(num, d, l, name) {
      assert Spares(num, Statement(layers, op), l, name);
    }
  }

  lemma PerformedIs(num: Numbers, layers: seq<Layer>, op: Op)
    requires Enabled(layers, op)
    ensures Performed(num, layers, op).layers == Apply(num, layers, op)
  {
    hide Performed;
  }

  // ---- The two ends of a call ----

  lemma BackupNames()
    ensures "__" + "options" == "__options" && "__" + "params" == "__params"
  {
  }

  lemma BindKeepsOthers(layer: Layer, name: string, value: seq<string>, other: string)
    requires (name == "options" || name == "params") && other in layer.typeOf && !IsCallName(other)
    ensures FlagsKept(layer, Bind(layer, name, value), other) && SameVar(layer, Bind(layer, name, value), other)
  {
    BackupNames();
  }

  lemma RevertKeepsOthers(layer: Layer, name: string, saved: Saved, other: string)
    requires (name == "options" || name == "params") && other in layer.typeOf && !IsCallName(other)
    ensures FlagsKept(layer, Revert(layer, name, saved), other) && SameVar(layer, Revert(layer, name, saved), other)
  {
    BackupNames();
  }

  lemma EnteredKept(num: Numbers, layers: seq<Layer>, options: seq<string>, params: seq<string>, scoped: bool,
                    scope: string, l: nat, name: string)
    requires l < |layers| && name in layers[l].typeOf && !IsCallName(name)
    ensures VarKept(num, layers, Entered(layers, options, params, scoped, scope), [], l, name)
  {
    hide Bind, SameVar;
    var top := |layers| - 1;
    var framed := if scoped then layers + [EMPTY.(scope := scope)] else layers[top := layers[top].(scope := scope)];
    KeptWhere(num, layers, framed, l, name);
    if l == 0 {
      var middle := Bind(framed[0], "options", options);
      BindKeepsOthers(framed[0], "options", options, name);
      BindKeepsOthers(middle, "params", params, name);
      SameVarThen(layers[0], framed[0], middle, name);
      SameVarThen(layers[0], middle, Bind(middle, "params", params), name);
    }
  }

  lemma LeftKept(num: Numbers, before: seq<Layer>, after: seq<Layer>, scoped: bool, l: nat, name: string)
    requires l < |before| && |after| >= |before| + (if scoped then 1 else 0)
    requires name in after[l].typeOf && !IsCallName(name)
    ensures VarKept(num, after[..|before|], Left(before, after, scoped), [], l, name)
  {
    hide Revert, SameVar, Save;
    var top := |before| - 1;
    var unframed := if scoped then after[..|after| - 1] else after[top := after[top].(scope := before[top].scope)];
    KeptWhere(num, after[..|before|], unframed, l, name);
    if l == 0 {
      var saved := Save(before[0], "options");
      var middle := Revert(unframed[0], "options", saved);
      RevertKeepsOthers(unframed[0], "options", saved, name);
      RevertKeepsOthers(middle, "params", Save(before[0], "params"), name);
      SameVarThen(after[0], unframed[0], middle, name);
      SameVarThen(after[0], middle, Revert(middle, "params", Save(before[0], "params")), name);
    }
  }

  // ---- Code ----

  lemma PushedKept(num: Numbers, layers: seq<Layer>, scoped: bool, l: nat, name: string)
    requires l < |layers| && name in layers[l].typeOf
    ensures VarKept(num, layers, Pushed(layers, scoped), [], l, name)
    ensures l < |Pushed(layers, scoped)| && name in Pushed(layers, scoped)[l].typeOf
  {
    KeptWhere(num, layers, Pushed(layers, scoped), l, name);
  }

  /** A block in a layer of its own. */
  lemma PoppedKept(num: Numbers, layers: seq<Layer>, scoped: bool, after: seq<Layer>, did: seq<Statement>, l: nat,
                   name: string)
    requires l < |layers| && |after| >= |Pushed(layers, scoped)|
    requires VarKept(num, Pushed(layers, scoped), after, did, l, name)
    ensures VarKept(num, layers, Popped(after, scoped), did, l, name)
  {
    hide SameVar, Spares, Finds, FlagsKept;
    assert Pushed(layers, scoped)[l] == layers[l];
    assert Popped(after, scoped)[l] == after[l];
  }

  /** A block's start does nothing of its own. */
  lemma KeptFrom(num: Numbers, a: seq<Layer>, b: seq<Layer>, c: seq<Layer>, did: seq<Statement>, l: nat, name: string)
    requires VarKept(num, a, b, [], l, name) && VarKept(num, b, c, did, l, name)
    ensures VarKept(num, a, c, did, l, name)
  {
    hide VarKept;
    KeptThen(num, a, b, c, [], did, l, name);
    assert [] + did == did;
  }

  /**
   Over any code, with calls, blocks and loops, and however it ends, a variable of a layer that
   was there before keeps its type, its flags and its scopes, and changes only by the statements
   executed, unless it has one of the names calls use.
   */
  lemma {:induction false} CodeKeeps(num: Numbers, layers: seq<Layer>, code: Code, l: nat, name: string)
    requires l < |layers| && name in layers[l].typeOf && !IsCallName(name)
    ensures VarKept(num, layers, Run(num, layers, code).layers, Executed(num, layers, code), l, name)
    decreases code, 2
  {
    hide VarKept, Performed, Entered, Left, Pushed, Popped, RunTurns, RunFor, Enabled, IsCallName, ExecutedTurns,
         ExecutedFor;
    match code
    case Then(first, rest) =>
      CodeKeeps(num, layers, first, l, name);
      var r := Run(num, layers, first);
      if r.outcome == Normal {
        StillDeclared(num, layers, r.layers, Executed(num, layers, first), l, name);
        CodeKeeps(num, r.layers, rest, l, name);
        KeptThen(num, layers, r.layers, Run(num, r.layers, rest).layers,
                 Executed(num, layers, first), Executed(num, r.layers, rest), l, name);
      } else {
        assert Executed(num, layers, first) + [] == Executed(num, layers, first);
      }
    case Do(op) =>
      KeptWhere(num, layers, layers, l, name);
      if IsStatement(op) && Enabled(layers, op) {
        StatementKept(num, layers, op, l, name);
      }
    case CallFn(_, _, _, _, _, _) => CallKeeps(num, layers, code, l, name);
    case If(scoped, block) => BlockKeeps(num, layers, scoped, block, l, name);
    case While(scoped, turns) => TurnsKeep(num, layers, scoped, turns, l, name);
    case For(_, _, _, _) => ForKeeps(num, layers, code, l, name);
    case _ => KeptWhere(num, layers, layers, l, name);
  }

  lemma {:induction false} CallKeeps(num: Numbers, layers: seq<Layer>, code: Code, l: nat, name: string)
    requires code.CallFn? && l < |layers| && name in layers[l].typeOf && !IsCallName(name)
    ensures VarKept(num, layers, Run(num, layers, code).layers, Executed(num, layers, code), l, name)
    decreases code, 0
  {
    hide VarKept, Entered, Left, IsCallName;
    if !MayCall(layers, code.access) {
      KeptWhere(num, layers, layers, l, name);
      return;
    }
    var entered := Entered(layers, code.options, code.params, Scoped(code), ScopeOf(code));
    var did := Executed(num, entered, code.body);
    EnteredKept(num, layers, code.options, code.params, Scoped(code), ScopeOf(code), l, name);
    StillDeclared(num, layers, entered, [], l, name);
    CodeKeeps(num, entered, code.body, l, name);
    var r := EndText(Run(num, entered, code.body));
    KeptFrom(num, layers, entered, r.layers, did, l, name);
    if r.outcome != Failed {
      StillDeclared(num, layers, r.layers, did, l, name);
      LeftKept(num, layers, r.layers, Scoped(code), l, name);
      CutKept(num, layers, r.layers, did, l, name);
      KeptThen(num, layers, r.layers[..|layers|], Left(layers, r.layers, Scoped(code)), did, [], l, name);
      assert did + [] == did;
    }
  }

  lemma CutKept(num: Numbers, before: seq<Layer>, after: seq<Layer>, did: seq<Statement>, l: nat, name: string)
    requires VarKept(num, before, after, did, l, name)
    ensures |before| <= |after| && VarKept(num, before, after[..|before|], did, l, name)
  {
    hide Spares, Finds, FlagsKept, SameVar;
    assert after[..|before|][l] == after[l];
  }

  lemma {:induction false} BlockKeeps(num: Numbers, layers: seq<Layer>, scoped: bool, block: Code, l: nat, name: string)
    requires l < |layers| && name in layers[l].typeOf && !IsCallName(name)
    ensures |Pushed(layers, scoped)| > 0
    ensures VarKept(num, layers, Popped(Run(num, Pushed(layers, scoped), block).layers, scoped),
                    Executed(num, Pushed(layers, scoped), block), l, name)
    decreases block, 3
  {
    hide Run, Executed, VarKept, IsCallName;
    PushedKept(num, layers, scoped, l, name);
    CodeKeeps(num, Pushed(layers, scoped), block, l, name);
    PoppedKept(num, layers, scoped, Run(num, Pushed(layers, scoped), block).layers,
               Executed(num, Pushed(layers, scoped), block), l, name);
  }

  lemma {:induction false} ForKeeps(num: Numbers, layers: seq<Layer>, code: Code, l: nat, name: string)
    requires code.For? && l < |layers| && name in layers[l].typeOf && !IsCallName(name)
    ensures VarKept(num, layers, RunFor(num, layers, code).layers, ExecutedFor(num, layers, code), l, name)
    decreases code, 0
  {
    hide Run, RunTurns, Executed, ExecutedTurns, VarKept, IsCallName, Pushed, Popped;
    PushedKept(num, layers, code.scoped, l, name);
    var pushed := Pushed(layers, code.scoped);
    CodeKeeps(num, pushed, code.before, l, name);
    var r, did := EndText(Run(num, pushed, code.before)), Executed(num, pushed, code.before);
    KeptFrom(num, layers, pushed, r.layers, did, l, name);
    assert did + [] == did;
    if r.outcome == Normal {
      StillDeclared(num, pushed, r.layers, did, l, name);
      TurnsKeep(num, r.layers, code.scoped, code.turns, l, name);
      var t, turned := RunTurns(num, r.layers, code.scoped, code.turns),
          ExecutedTurns(num, r.layers, code.scoped, code.turns);
      KeptThen(num, pushed, r.layers, t.layers, did, turned, l, name);
      KeptFrom(num, layers, pushed, t.layers, did + turned, l, name);
      assert turned + [] == turned;
      if t.outcome == Normal {
        StillDeclared(num, pushed, t.layers, did + turned, l, name);
        CodeKeeps(num, t.layers, code.after, l, name);
        var a, ended := Run(num, t.layers, code.after), Executed(num, t.layers, code.after);
        KeptThen(num, pushed, t.layers, a.layers, did + turned, ended, l, name);
        assert did + turned + ended == did + (turned + ended);
        KeptFrom(num, layers, pushed, a.layers, did + (turned + ended), l, name);
        PoppedKept(num, layers, code.scoped, a.layers, did + (turned + ended), l, name);
      }
    }
  }

  lemma {:induction false} TurnKeeps(num: Numbers, layers: seq<Layer>, scoped: bool, turn: Turns, l: nat, name: string)
    requires turn.Turn? && l < |layers| && name in layers[l].typeOf && !IsCallName(name)
    ensures VarKept(num, layers, RunTurn(num, layers, scoped, turn).layers, ExecutedTurn(num, layers, scoped, turn),
              l, name)
    decreases turn, 0
  {
    hide Run, Executed, VarKept, IsCallName, Pushed, Popped;
    BlockKeeps(num, layers, scoped, turn.block, l, name);
    var pushed := Pushed(layers, scoped);
    var r, did := EndText(Run(num, pushed, turn.block)), Executed(num, pushed, turn.block);
    var b := Popped(r.layers, scoped);
    assert did + [] == did;
    if r.outcome == Normal {
      StillDeclared(num, layers, b, did, l, name);
      CodeKeeps(num, b, turn.step, l, name);
      KeptThen(num, layers, b, Run(num, b, turn.step).layers, did, Executed(num, b, turn.step), l, name);
    }
  }

  lemma {:induction false} TurnsKeep(num: Numbers, layers: seq<Layer>, scoped: bool, turns: Turns, l: nat, name: string)
    requires l < |layers| && name in layers[l].typeOf && !IsCallName(name)
    ensures VarKept(num, layers, RunTurns(num, layers, scoped, turns).layers,
              ExecutedTurns(num, layers, scoped, turns), l, name)
    decreases turns, 1
  {
    hide RunTurn, ExecutedTurn, VarKept, IsCallName;
    KeptWhere(num, layers, layers, l, name);
    if !turns.Turn? {
    } else {
      TurnKeeps(num, layers, scoped, turns, l, name);
      var t, did := RunTurn(num, layers, scoped, turns), ExecutedTurn(num, layers, scoped, turns);
      assert did + [] == did;
      if t.outcome == Normal {
        StillDeclared(num, layers, t.layers, did, l, name);
        TurnsKeep(num, t.layers, scoped, turns.rest, l, name);
        KeptThen(num, layers, t.layers, RunTurns(num, t.layers, scoped, turns.rest).layers,
                 did, ExecutedTurns(num, t.layers, scoped, turns.rest), l, name);
      }
    }
  }

  // ---- Constants and privates ----

  lemma NoBackup(op: Op, name: string)
    requires !IsCallName(name)
    ensures !MeansBackup(op, name)
  {
    BackupNames();
  }

  /**
   Over any code a constant stays constant and keeps its value, unless it has one of the names
   calls use.
   */
  lemma CodeKeepsConstants(num: Numbers, layers: seq<Layer>, code: Code, l: nat, name: string)
    requires l < |layers| && name in layers[l].constants && name in layers[l].typeOf && !IsCallName(name)
    ensures var after := Run(num, layers, code).layers;
            l < |after| && name in after[l].constants && name in after[l].typeOf && SameVar(layers[l], after[l], name)
  {
    hide Run, Executed, SameVar, IsCallName, Apply;
    CodeKeeps(num, layers, code, l, name);
    forall d | d in Executed(num, layers, code)
      ensures Spares(num, d, l, name)
    {
      assert Finds(layers[l], d, l, name);
      NoBackup(d.op, name);
      DoneScopes(num, d.layers, d.op);
      OpKeepsConstant(num, d.layers, d.op, l, name);
    }
  }

  /** A vector update meant for the variable of layer l. */
  predicate UpdatesVector(d: Statement, l: nat, name: string) {
    d.op.Vector? && Target(d.op.name, d.op.member) == name && FindVar(d.layers, d.op.name) == Some(l)
  }

  /** The scope on top when a statement is executed is one of those given. */
  predicate UnderScope(d: Statement, scopes: set<string>) {
    |d.layers| > 0 && d.layers[|d.layers| - 1].scope in scopes
  }

  lemma DefineKeeps(num: Numbers, layers: seq<Layer>, op: Op, l: nat, name: string)
    requires op.Define? && Enabled(layers, op) && l < |layers| && name in layers[l].typeOf
    ensures |Apply(num, layers, op)| == |layers| && SameVar(layers[l], Apply(num, layers, op)[l], name)
  {
  }

  lemma PrivateSpared(num: Numbers, before: Layer, d: Statement, l: nat, name: string)
    requires Finds(before, d, l, name) && name in before.privates
    requires !UpdatesVector(d, l, name) && !UnderScope(d, InScopes(before, name))
    ensures Spares(num, d, l, name)
  {
    hide FindVar, AssignAll, IncrementAll, Assign, UpdateVector, SameVar;
    DoneScopes(num, d.layers, d.op);
    if IsGuardedOp(d.op) {
      GuardedOps(num, d.layers, d.op);
      GuardedAt(d.layers, Apply(num, d.layers, d.op), l, name);
    } else if d.op.Vector? {
      VectorChangesOnly(num, d.layers, d.op.name, d.op.member, d.op.update);
    } else {
      DefineKeeps(num, d.layers, d.op, l, name);
    }
  }

  /**
   Over any code a private variable stays private to the same scopes, and if its value has
   changed, some statement was executed under one of those scopes, or was a vector update meant
   for it; unless it has one of the names calls use.
   */
  lemma CodeKeepsPrivates(num: Numbers, layers: seq<Layer>, code: Code, l: nat, name: string)
    requires l < |layers| && name in layers[l].privates && name in layers[l].typeOf && !IsCallName(name)
    ensures var after := Run(num, layers, code).layers;
            && l < |after| && name in after[l].privates && InScopes(after[l], name) == InScopes(layers[l], name)
            && (!SameVar(layers[l], after[l], name) ==>
                  exists d | d in Executed(num, layers, code) ::
                    UpdatesVector(d, l, name) || UnderScope(d, InScopes(layers[l], name)))
  {
    hide Run, Executed, SameVar, IsCallName, Spares, UpdatesVector, UnderScope;
    CodeKeeps(num, layers, code, l, name);
    forall d | d in Executed(num, layers, code) && !UpdatesVector(d, l, name)
        && !UnderScope(d, InScopes(layers[l], name))
      ensures Spares(num, d, l, name)
    {
      PrivateSpared(num, layers[l], d, l, name);
    }
  }

  // ---- The backups ----

  lemma BindChangesBackupIff(layer: Layer, name: string, value: seq<string>)
    requires WellTyped(layer) && (name == "options" || name == "params")
    ensures !SameVar(layer, Bind(layer, name, value), "__" + name) <==>
              InVector(layer, name) && TextsOf(layer, name) != TextsOf(layer, "__" + name)
  {
    BackupNames();
    GetFits(layer, StrVecs, "__" + name);
    assert forall store: Store | store != StrVecs ::
             Get(Bind(layer, name, value), store, "__" + name) == Get(layer, store, "__" + name);
  }

  lemma BindLeavesBackup(layer: Layer, name: string, value: seq<string>, other: string)
    requires (name == "options" && other == "params") || (name == "params" && other == "options")
    ensures SameVar(layer, Bind(layer, name, value), "__" + other)
    ensures InVector(Bind(layer, name, value), other) == InVector(layer, other)
    ensures TextsOf(Bind(layer, name, value), other) == TextsOf(layer, other)
    ensures WellTyped(layer) ==> WellTyped(Bind(layer, name, value))
  {
    BackupNames();
  }

  /**
   Entering a call overwrites the backup of params or options, constant or not, exactly when
   that is a vector of strings with another value.
   */
  lemma EnteringChangesBackupIff(layers: seq<Layer>, options: seq<string>, params: seq<string>, scoped: bool,
                                 scope: string, name: string)
    requires |layers| > 0 && WellTyped(layers[0]) && (name == "options" || name == "params")
    ensures !SameVar(layers[0], Entered(layers, options, params, scoped, scope)[0], "__" + name) <==>
              InVector(layers[0], name) && TextsOf(layers[0], name) != TextsOf(layers[0], "__" + name)
  {
    hide Bind, SameVar, InVector, WellTyped, TextsOf;
    var top := |layers| - 1;
    var framed := if scoped then layers + [EMPTY.(scope := scope)] else layers[top := layers[top].(scope := scope)];
    ScopeIsNoVar(layers[0], framed[0], name);
    var middle := Bind(framed[0], "options", options);
    var entered := Bind(middle, "params", params);
    BindLeavesBackup(framed[0], "options", options, "params");
    BindLeavesBackup(middle, "params", params, "options");
    BindChangesBackupIff(framed[0], "options", options);
    BindChangesBackupIff(middle, "params", params);
    SameVarEither(framed[0], middle, entered, "__" + name);
    SameVarEither(layers[0], framed[0], entered, "__" + name);
    if name == "params" {
      SameTexts(framed[0], middle, "__" + name);
    }
  }

  lemma SameTexts(a: Layer, b: Layer, name: string)
    requires SameVar(a, b, name)
    ensures TextsOf(a, name) == TextsOf(b, name)
  {
  }

  lemma ScopeIsNoVar(a: Layer, b: Layer, name: string)
    requires b == a.(scope := b.scope)
    ensures forall other :: SameVar(a, b, other) && TextsOf(a, other) == TextsOf(b, other)
              && InVector(a, other) == InVector(b, other)
    ensures WellTyped(a) ==> WellTyped(b)
  {
  }

  /** Being the same carries over when one of two steps keeps it. */
  lemma SameVarEither(a: Layer, b: Layer, c: Layer, name: string)
    ensures SameVar(a, b, name) ==> (SameVar(a, c, name) <==> SameVar(b, c, name))
    ensures SameVar(b, c, name) ==> (SameVar(a, c, name) <==> SameVar(a, b, name))
  {
  }

  lemma RevertErasesBackupIff(layer: Layer, name: string, saved: Saved)
    requires WellTyped(layer) && (name == "options" || name == "params")
    ensures !SameVar(layer, Revert(layer, name, saved), "__" + name) <==>
              saved.varType == STRINGS && TextsOf(layer, "__" + name) != []
  {
    BackupNames();
    GetFits(layer, StrVecs, "__" + name);
    var reverted := Revert(layer, name, saved);
    assert "__" + name != name;
    assert forall store: Store | store != StrVecs ::
             Get(reverted, store, "__" + name) == Get(layer, store, "__" + name);
    assert Get(reverted, StrVecs, "__" + name) == if saved.varType == STRINGS then TextList([])
             else Get(layer, StrVecs, "__" + name);
  }

  lemma RevertLeavesBackup(layer: Layer, name: string, saved: Saved, other: string)
    requires (name == "options" && other == "params") || (name == "params" && other == "options")
    ensures SameVar(layer, Revert(layer, name, saved), "__" + other)
    ensures WellTyped(layer) ==> WellTyped(Revert(layer, name, saved))
  {
    BackupNames();
  }

  /**
   Leaving a call erases the backup exactly when the caller's variable was a vector of strings
   and the backup is not empty.
   */
  lemma LeavingErasesBackupIff(before: seq<Layer>, after: seq<Layer>, scoped: bool, name: string)
    requires |before| > 0 && |after| >= |before| + (if scoped then 1 else 0)
    requires WellTyped(after[0]) && (name == "options" || name == "params")
    ensures !SameVar(after[0], Left(before, after, scoped)[0], "__" + name) <==>
              InVector(before[0], name) && TextsOf(after[0], "__" + name) != []
  {
    hide Revert, SameVar, WellTyped, TextsOf;
    var top := |before| - 1;
    var unframed := if scoped then after[..|after| - 1] else after[top := after[top].(scope := before[top].scope)];
    ScopeIsNoVar(after[0], unframed[0], name);
    var savedOptions, savedParams := Save(before[0], "options"), Save(before[0], "params");
    var middle := Revert(unframed[0], "options", savedOptions);
    var last := Revert(middle, "params", savedParams);
    RevertLeavesBackup(unframed[0], "options", savedOptions, "params");
    RevertLeavesBackup(middle, "params", savedParams, "options");
    RevertErasesBackupIff(unframed[0], "options", savedOptions);
    RevertErasesBackupIff(middle, "params", savedParams);
    SameVarEither(unframed[0], middle, last, "__" + name);
    SameVarEither(after[0], unframed[0], last, "__" + name);
    if name == "params" {
      SameTexts(unframed[0], middle, "__" + name);
    }
  }

  /** So even a call of an empty function erases a page's constant of the name of a backup. */
  lemma CallErasesConstant(num: Numbers, name: string)
    ensures var page := EMPTY.(typeOf := map["params" := STRINGS, "__params" := STRINGS], constants := {"__params"},
                               values := map[Slot(StrVecs, "params") := TextList(["a"]),
                                   Slot(StrVecs, "__params") := TextList(["a"])]);
            var r := Run(num, [page], CallFn([], [], None, true, name, Nothing));
            && r.outcome == Normal && "__params" in r.layers[0].constants
            && TextsOf(page, "__params") == ["a"] && TextsOf(r.layers[0], "__params") == []
  {
    var page := EMPTY.(typeOf := map["params" := STRINGS, "__params" := STRINGS], constants := {"__params"},
                       values := map[Slot(StrVecs, "params") := TextList(["a"]),
                           Slot(StrVecs, "__params") := TextList(["a"])]);
    BackupNames();
    hide FunctionScope;
    var entered := Entered([page], [], [], true, FunctionScope(name, true));
    assert Run(num, entered, Nothing) == Ran(entered, [], Normal);
  }
}
