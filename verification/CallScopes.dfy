/**
 The scope code runs under. A function's body finds the function's own scope on top, in a layer
 of its own or not, and so do the blocks in it; privates of other scopes are out of its reach.
 */
module CallScopes {
  import opened CallEffects
  import opened Calls
  import opened CallStack
  import opened FunctionScopes
  import opened GuardedStore
  import opened Results
  import opened Variables

  function TopScope(layers: seq<Layer>): string
    requires |layers| > 0
  {
    layers[|layers| - 1].scope
  }

  /** From a layer up, all scopes are among those given. */
  predicate ScopesWithin(layers: seq<Layer>, from: nat, scopes: set<string>) {
    from < |layers| && forall l | from <= l < |layers| :: layers[l].scope in scopes
  }

  /** The scopes of the calls code makes. */
  function CallScopesOf(code: Code): set<string>
    decreases code
  {
    match code
    case Then(first, rest) => CallScopesOf(first) + CallScopesOf(rest)
    case CallFn(_, _, _, _, _, body) => {ScopeOf(code)} + CallScopesOf(body)
    case If(_, block) => CallScopesOf(block)
    case While(_, turns) => TurnScopes(turns)
    case For(_, before, turns, after) => CallScopesOf(before) + TurnScopes(turns) + CallScopesOf(after)
    case _ => {}
  }

  function TurnScopes(turns: Turns): set<string>
    decreases turns
  {
    if turns.Turn? then CallScopesOf(turns.block) + CallScopesOf(turns.step) + TurnScopes(turns.rest) else {}
  }

  /** Statements that find one of the scopes on top. */
  predicate RunsUnder(did: seq<Statement>, scopes: set<string>) {
    forall d | d in did :: |d.layers| > 0 && TopScope(d.layers) in scopes
  }

  /** What code comes to, as far as scopes go. */
  predicate StaysWithin(after: seq<Layer>, did: seq<Statement>, from: nat, scopes: set<string>) {
    ScopesWithin(after, from, scopes) && RunsUnder(did, scopes)
  }

  lemma RunsUnderBoth(a: seq<Statement>, b: seq<Statement>, scopes: set<string>)
    requires RunsUnder(a, scopes) && RunsUnder(b, scopes)
    ensures RunsUnder(a + b, scopes)
  {
  }

  lemma NothingRuns(scopes: set<string>)
    ensures RunsUnder([], scopes)
  {
  }

  lemma PushedWithin(layers: seq<Layer>, scoped: bool, from: nat, scopes: set<string>)
    requires ScopesWithin(layers, from, scopes)
    ensures ScopesWithin(Pushed(layers, scoped), from, scopes)
  {
  }

  lemma PoppedWithin(layers: seq<Layer>, scoped: bool, from: nat, scopes: set<string>)
    requires ScopesWithin(layers, from, scopes) && (scoped ==> from + 1 < |layers|)
    ensures ScopesWithin(Popped(layers, scoped), from, scopes)
  {
  }

  lemma StatementWithin(num: Numbers, layers: seq<Layer>, op: Op, from: nat, scopes: set<string>)
    requires ScopesWithin(layers, from, scopes) && IsStatement(op) && Enabled(layers, op)
    ensures ScopesWithin(Performed(num, layers, op).layers, from, scopes)
    ensures RunsUnder([Statement(layers, op)], scopes)
  {
    DoneScopes(num, layers, op);
    PerformedIs(num, layers, op);
  }

  lemma EnteredWithin(layers: seq<Layer>, options: seq<string>, params: seq<string>, scoped: bool, scope: string,
                      from: nat, scopes: set<string>)
    requires ScopesWithin(layers, from, scopes) && scope in scopes
    ensures ScopesWithin(Entered(layers, options, params, scoped, scope), from, scopes)
  {
  }

  lemma LeftWithin(before: seq<Layer>, after: seq<Layer>, scoped: bool, from: nat, scopes: set<string>)
    requires ScopesWithin(before, from, scopes) && ScopesWithin(after, from, scopes)
    requires |after| >= |before| + (if scoped then 1 else 0)
    ensures ScopesWithin(Left(before, after, scoped), from, scopes)
  {
    hide Save;
  }

  /** All code runs under the scope it starts with and those of the calls it makes. */
  lemma {:induction false} CodeStaysWithin(num: Numbers, layers: seq<Layer>, code: Code, from: nat, scopes: set<string>)
    requires ScopesWithin(layers, from, scopes) && CallScopesOf(code) <= scopes
    ensures StaysWithin(Run(num, layers, code).layers, Executed(num, layers, code), from, scopes)
    decreases code, 2
  {
    hide ScopesWithin, RunsUnder, Performed, Entered, Left, Pushed, Popped, RunTurns, RunFor, Enabled, ExecutedTurns,
         ExecutedFor, IsStatement;
    SomeLayer(layers, from, scopes);
    NothingRuns(scopes);
    match code
    case Then(first, rest) =>
      CodeStaysWithin(num, layers, first, from, scopes);
      var r := Run(num, layers, first);
      if r.outcome == Normal {
        CodeStaysWithin(num, r.layers, rest, from, scopes);
        RunsUnderBoth(Executed(num, layers, first), Executed(num, r.layers, rest), scopes);
      } else {
        assert Executed(num, layers, first) + [] == Executed(num, layers, first);
      }
    case Do(op) =>
      if IsStatement(op) && Enabled(layers, op) {
        StatementWithin(num, layers, op, from, scopes);
      }
    case CallFn(_, _, _, _, _, _) => CallStaysWithin(num, layers, code, from, scopes);
    case If(scoped, block) => BlockStaysWithin(num, layers, scoped, block, from, scopes);
    case While(scoped, turns) => TurnsStayWithin(num, layers, scoped, turns, from, scopes);
    case For(_, _, _, _) => ForStaysWithin(num, layers, code, from, scopes);
    case _ =>
  }

  lemma SomeLayer(layers: seq<Layer>, from: nat, scopes: set<string>)
    requires ScopesWithin(layers, from, scopes)
    ensures from < |layers| && TopScope(layers) in scopes
  {
  }

  lemma {:induction false} CallStaysWithin(num: Numbers, layers: seq<Layer>, code: Code, from: nat, scopes: set<string>)
    requires code.CallFn? && ScopesWithin(layers, from, scopes) && CallScopesOf(code) <= scopes
    ensures |layers| > 0 && StaysWithin(Run(num, layers, code).layers, Executed(num, layers, code), from, scopes)
    decreases code, 0
  {
    hide ScopesWithin, RunsUnder, Entered, Left;
    SomeLayer(layers, from, scopes);
    NothingRuns(scopes);
    if MayCall(layers, code.access) {
      var entered := Entered(layers, code.options, code.params, Scoped(code), ScopeOf(code));
      EnteredWithin(layers, code.options, code.params, Scoped(code), ScopeOf(code), from, scopes);
      CodeStaysWithin(num, entered, code.body, from, scopes);
      var r := EndText(Run(num, entered, code.body));
      if r.outcome != Failed {
        LeftWithin(layers, r.layers, Scoped(code), from, scopes);
      }
    }
  }

  lemma {:induction false} BlockStaysWithin(num: Numbers, layers: seq<Layer>, scoped: bool, block: Code, from: nat,
                                            scopes: set<string>)
    requires ScopesWithin(layers, from, scopes) && CallScopesOf(block) <= scopes
    ensures |layers| > 0 && |Pushed(layers, scoped)| > 0
    ensures StaysWithin(Popped(Run(num, Pushed(layers, scoped), block).layers, scoped),
              Executed(num, Pushed(layers, scoped), block), from, scopes)
    decreases block, 3
  {
    hide Run, Executed, ScopesWithin, RunsUnder, Popped;
    SomeLayer(layers, from, scopes);
    PushedWithin(layers, scoped, from, scopes);
    CodeStaysWithin(num, Pushed(layers, scoped), block, from, scopes);
    PoppedWithin(Run(num, Pushed(layers, scoped), block).layers, scoped, from, scopes);
  }

  lemma {:induction false} ForStaysWithin(num: Numbers, layers: seq<Layer>, code: Code, from: nat, scopes: set<string>)
    requires code.For? && ScopesWithin(layers, from, scopes) && CallScopesOf(code) <= scopes
    ensures |layers| > 0 && StaysWithin(RunFor(num, layers, code).layers, ExecutedFor(num, layers, code), from, scopes)
    decreases code, 0
  {
    hide Run, RunTurns, Executed, ExecutedTurns, ScopesWithin, RunsUnder, Popped;
    SomeLayer(layers, from, scopes);
    NothingRuns(scopes);
    PushedWithin(layers, code.scoped, from, scopes);
    var pushed := Pushed(layers, code.scoped);
    CodeStaysWithin(num, pushed, code.before, from, scopes);
    var r, did := EndText(Run(num, pushed, code.before)), Executed(num, pushed, code.before);
    assert did + [] == did;
    if r.outcome == Normal {
      TurnsStayWithin(num, r.layers, code.scoped, code.turns, from, scopes);
      var t := RunTurns(num, r.layers, code.scoped, code.turns);
      var turned := ExecutedTurns(num, r.layers, code.scoped, code.turns);
      assert turned + [] == turned;
      if t.outcome == Normal {
        CodeStaysWithin(num, t.layers, code.after, from, scopes);
        RunsUnderBoth(turned, Executed(num, t.layers, code.after), scopes);
        PoppedWithin(Run(num, t.layers, code.after).layers, code.scoped, from, scopes);
        RunsUnderBoth(did, turned + Executed(num, t.layers, code.after), scopes);
      } else {
        RunsUnderBoth(did, turned, scopes);
      }
    }
  }

  lemma {:induction false} TurnStaysWithin(num: Numbers, layers: seq<Layer>, scoped: bool, turn: Turns, from: nat,
                                           scopes: set<string>)
    requires turn.Turn? && ScopesWithin(layers, from, scopes) && TurnScopes(turn) <= scopes
    ensures |layers| > 0
    ensures StaysWithin(RunTurn(num, layers, scoped, turn).layers, ExecutedTurn(num, layers, scoped, turn), from,
              scopes)
    decreases turn, 0
  {
    hide Run, Executed, ScopesWithin, RunsUnder, Pushed, Popped;
    BlockStaysWithin(num, layers, scoped, turn.block, from, scopes);
    var pushed := Pushed(layers, scoped);
    var r, did := EndText(Run(num, pushed, turn.block)), Executed(num, pushed, turn.block);
    var b := Popped(r.layers, scoped);
    assert did + [] == did;
    SomeLayer(b, from, scopes);
    if r.outcome == Normal {
      CodeStaysWithin(num, b, turn.step, from, scopes);
      RunsUnderBoth(did, Executed(num, b, turn.step), scopes);
    }
  }

  lemma {:induction false} TurnsStayWithin(num: Numbers, layers: seq<Layer>, scoped: bool, turns: Turns, from: nat,
                                           scopes: set<string>)
    requires ScopesWithin(layers, from, scopes) && TurnScopes(turns) <= scopes
    ensures |layers| > 0
    ensures StaysWithin(RunTurns(num, layers, scoped, turns).layers, ExecutedTurns(num, layers, scoped, turns), from,
              scopes)
    decreases turns, 1
  {
    hide RunTurn, ExecutedTurn, ScopesWithin, RunsUnder;
    SomeLayer(layers, from, scopes);
    NothingRuns(scopes);
    if !turns.Turn? {
    } else {
      TurnStaysWithin(num, layers, scoped, turns, from, scopes);
      var t, did := RunTurn(num, layers, scoped, turns), ExecutedTurn(num, layers, scoped, turns);
      assert did + [] == did;
      if t.outcome == Normal {
        TurnsStayWithin(num, t.layers, scoped, turns.rest, from, scopes);
        RunsUnderBoth(did, ExecutedTurns(num, t.layers, scoped, turns.rest), scopes);
      }
    }
  }

  // ---- A function's body ----

  lemma EnteredOnTop(layers: seq<Layer>, options: seq<string>, params: seq<string>, scoped: bool, scope: string)
    requires |layers| > 0
    ensures var entered := Entered(layers, options, params, scoped, scope);
            ScopesWithin(entered, |entered| - 1, {scope})
  {
  }

  lemma CallExecutes(num: Numbers, layers: seq<Layer>, code: Code)
    requires |layers| > 0 && code.CallFn?
    ensures Executed(num, layers, code) ==
            if MayCall(layers, code.access) then
              Executed(num, Entered(layers, code.options, code.params, Scoped(code), ScopeOf(code)), code.body)
            else []
  {
    hide Entered;
  }

  /**
   The scope of a body. Every statement a call executes, in blocks and loops too, finds the scope
   of the function on top, scoped or not; statements of the calls it makes, and those after a
   call that left a layer behind, may find the scope of one of those.
   */
  lemma BodyRunsUnderItsScope(num: Numbers, layers: seq<Layer>, code: Code)
    requires code.CallFn? && |layers| > 0
    ensures RunsUnder(Executed(num, layers, code), {ScopeOf(code)} + CallScopesOf(code.body))
    ensures CallScopesOf(code.body) == {} ==> RunsUnder(Executed(num, layers, code), {ScopeOf(code)})
  {
    hide Run, Executed, Entered, RunsUnder;
    var scopes := {ScopeOf(code)} + CallScopesOf(code.body);
    CallExecutes(num, layers, code);
    if MayCall(layers, code.access) {
      var entered := Entered(layers, code.options, code.params, Scoped(code), ScopeOf(code));
      EnteredOnTop(layers, code.options, code.params, Scoped(code), ScopeOf(code));
      CodeStaysWithin(num, entered, code.body, |entered| - 1, scopes);
    } else {
      NothingRuns(scopes);
    }
    if CallScopesOf(code.body) == {} {
      assert scopes == {ScopeOf(code)};
    }
  }

  /**
   So does the first statement of a body, whatever it goes on with, and it finds a layer more
   when the call is scoped.
   */
  lemma FirstStatementFinds(num: Numbers, layers: seq<Layer>, code: Code, op: Op, rest: Code)
    requires code.CallFn? && |layers| > 0 && code.body == Then(Do(op), rest) && IsStatement(op)
    requires Executed(num, layers, code) != []
    ensures var d := Executed(num, layers, code)[0];
            && |d.layers| == |layers| + (if Scoped(code) then 1 else 0)
            && TopScope(d.layers) == ScopeOf(code)
            && forall l | 0 <= l < |layers| - 1 || (Scoped(code) && l == |layers| - 1) ::
                 d.layers[l].scope == layers[l].scope
  {
    var entered := Entered(layers, code.options, code.params, Scoped(code), ScopeOf(code));
    CallExecutes(num, layers, code);
    EnteredOnTop(layers, code.options, code.params, Scoped(code), ScopeOf(code));
    EnteredScopes(layers, code.options, code.params, Scoped(code), ScopeOf(code));
    hide Entered, Performed;
    FirstExecuted(num, entered, op, rest);
  }

  lemma FirstExecuted(num: Numbers, layers: seq<Layer>, op: Op, rest: Code)
    requires |layers| > 0 && IsStatement(op)
    ensures var did := Executed(num, layers, Then(Do(op), rest)); did != [] ==> did[0] == Statement(layers, op)
  {
    hide Performed;
    if !Enabled(layers, op) {
      assert Run(num, layers, Do(op)).outcome == Failed;
    }
    assert Executed(num, layers, Do(op)) == if Enabled(layers, op) then [Statement(layers, op)] else [];
  }

  /** The last of the options s and !s decides whether that is so, and the function when there is neither. */
  lemma {:induction false} LastOptionDecides(options: seq<string>, byDefault: bool, k: nat)
    requires k < |options| && (options[k] == "s" || options[k] == "!s")
    requires forall j | k < j < |options| :: options[j] != "s" && options[j] != "!s"
    ensures ScopedBy(options, byDefault) <==> options[k] == "s"
    decreases |options|
  {
    if k == |options| - 1 {
    } else {
      LastOptionDecides(options[..|options| - 1], byDefault, k);
    }
  }

  lemma {:induction false} NoOptionKeepsDefault(options: seq<string>, byDefault: bool)
    requires "s" !in options && "!s" !in options
    ensures ScopedBy(options, byDefault) == byDefault
  {
    if options == [] {
    } else {
      NoOptionKeepsDefault(options[..|options| - 1], byDefault);
    }
  }

  /**
   A private function is called just as any other under one of its scopes; from elsewhere
   nothing happens but the failure.
   */
  lemma PrivateFunctionIff(num: Numbers, layers: seq<Layer>, code: Code)
    requires code.CallFn? && |layers| > 0
    ensures Run(num, layers, code) ==
            if code.access.Some? && TopScope(layers) !in code.access.value then Ran(layers, [], Failed)
            else Run(num, layers, code.(access := None))
  {
    hide Entered, Left;
  }

  // ---- Privates from other functions ----

  lemma EnteredFinds(layers: seq<Layer>, options: seq<string>, params: seq<string>, scoped: bool, scope: string, l: nat,
                     name: string)
    requires FindVar(layers, name) == Some(l) && l < |layers| && name in layers[l].typeOf && !IsCallName(name)
    ensures var entered := Entered(layers, options, params, scoped, scope);
            && |entered| > l && FindVar(entered, name) == Some(l) && FlagsKept(layers[l], entered[l], name)
            && SameVar(layers[l], entered[l], name)
  {
    var entered := Entered(layers, options, params, scoped, scope);
    var top := |layers| - 1;
    var framed := if scoped then layers + [EMPTY.(scope := scope)] else layers[top := layers[top].(scope := scope)];
    hide FindVar, SameVar, Bind, FlagsKept;
    FramedKeeps(layers, framed, l, name);
    var middle := Bind(framed[0], "options", options);
    BindDeclares(framed[0], "options", options, name);
    BindDeclares(middle, "params", params, name);
    if l == 0 {
      BindKeepsOthers(framed[0], "options", options, name);
      BindKeepsOthers(middle, "params", params, name);
      FlagsThen(layers[0], framed[0], middle, name);
      FlagsThen(layers[0], middle, entered[0], name);
    }
    FoundAbove(layers, name);
    forall k | 0 <= k < |entered|
      ensures name in entered[k].typeOf <==> k < |layers| && name in layers[k].typeOf
    {
      assert k > 0 ==> entered[k] == framed[k];
    }
    FoundBy(entered, name, l);
  }

  lemma FramedKeeps(layers: seq<Layer>, framed: seq<Layer>, l: nat, name: string)
    requires l < |layers| <= |framed| && name in layers[l].typeOf
    requires framed[l] == layers[l] || framed[l] == layers[l].(scope := framed[l].scope)
    ensures FlagsKept(layers[l], framed[l], name) && SameVar(layers[l], framed[l], name)
  {
  }

  lemma BindDeclares(layer: Layer, name: string, value: seq<string>, other: string)
    requires other != name
    ensures other in Bind(layer, name, value).typeOf <==> other in layer.typeOf
  {
  }

  lemma FlagsThen(a: Layer, b: Layer, c: Layer, name: string)
    requires FlagsKept(a, b, name) && FlagsKept(b, c, name) && SameVar(a, b, name) && SameVar(b, c, name)
    ensures FlagsKept(a, c, name) && SameVar(a, c, name)
  {
    SameVarThen(a, b, c, name);
  }

  lemma FoundAbove(layers: seq<Layer>, name: string)
    ensures var r := FindVar(layers, name);
            r.Some? ==> r.value < |layers| && name in layers[r.value].typeOf
                        && forall k | r.value < k < |layers| :: name !in layers[k].typeOf
  {
  }

  lemma FoundBy(layers: seq<Layer>, name: string, l: nat)
    requires l < |layers| && name in layers[l].typeOf && forall k | l < k < |layers| :: name !in layers[k].typeOf
    ensures FindVar(layers, name) == Some(l)
  {
    hide FindVar;
    var r := FindVar(layers, name);
    FoundAbove(layers, name);
    FoundSome(layers, name, l);
    assert !(r.value < l) && !(l < r.value);
  }

  lemma FoundSome(layers: seq<Layer>, name: string, l: nat)
    requires l < |layers| && name in layers[l].typeOf
    ensures FindVar(layers, name).Some?
  {
  }

  /**
   The text can be given to a variable of the type: an assignment of it where nothing is
   constant or private succeeds.
   */
  predicate Assignable(num: Numbers, varType: string, value: string) {
    Assign(num, [EMPTY.(typeOf := map["x" := varType])], "x", value).failure.None?
  }

  lemma AssignSucceedsIff(num: Numbers, layers: seq<Layer>, name: string, value: string, l: nat)
    requires FindVar(layers, name) == Some(l) && l < |layers| && name in layers[l].typeOf
    ensures Assign(num, layers, name, value).failure.None? <==>
              Guard(layers, l, name) == None && FromText(num, layers[l].typeOf[name], value).Ok?
  {
    hide FindVar, FromText, Guard, Write;
  }

  lemma AssignableIff(num: Numbers, layers: seq<Layer>, name: string, value: string, l: nat)
    requires FindVar(layers, name) == Some(l) && l < |layers| && name in layers[l].typeOf
    ensures Assign(num, layers, name, value).failure.None? <==>
              && name !in layers[l].constants
              && (name in layers[l].privates ==> TopScope(layers) in InScopes(layers[l], name))
              && Assignable(num, layers[l].typeOf[name], value)
  {
    hide FindVar, FromText, Assign, InScopes;
    var single := [EMPTY.(typeOf := map["x" := layers[l].typeOf[name]])];
    FoundBy(single, "x", 0);
    AssignSucceedsIff(num, single, "x", value, 0);
    AssignSucceedsIff(num, layers, name, value, l);
  }

  lemma BodyAssigns(num: Numbers, layers: seq<Layer>, name: string, value: string)
    requires |layers| > 0
    ensures var r, done := Run(num, layers, Do(Equals([name], value))), Assign(num, layers, name, value);
            r.layers == done.layers && r.outcome == if done.failure.Some? then Failed else Normal
  {
    var done := Assign(num, layers, name, value);
    hide Assign;
    assert [name][1..] == [];
    assert AssignAll(num, done.layers, [], value) == Done(done.layers, None);
    assert AssignAll(num, layers, [name], value) == done;
  }

  /**
   When a function can assign a variable of its caller. A call whose body is an assignment ends
   normally exactly when the variable is not constant, the text can be given to it, and, if it is
   private, the function's own scope is one of its scopes; whatever the caller's scope, and
   scoped or not. When it fails the variable is as it was.
   */
  lemma CallAssignsIff(num: Numbers, layers: seq<Layer>, code: Code, name: string, value: string, l: nat)
    requires code.CallFn? && code.access == None && code.body == Do(Equals([name], value))
    requires FindVar(layers, name) == Some(l) && l < |layers| && name in layers[l].typeOf && !IsCallName(name)
    ensures var r := Run(num, layers, code);
            && (r.outcome == Normal <==>
                  && name !in layers[l].constants
                  && (name in layers[l].privates ==> ScopeOf(code) in InScopes(layers[l], name))
                  && Assignable(num, layers[l].typeOf[name], value))
            && (r.outcome != Normal ==>
                  r.outcome == Failed && l < |r.layers| && SameVar(layers[l], r.layers[l], name))
  {
    hide FindVar, Assign, Assignable, SameVar, Run;
    var entered := Entered(layers, code.options, code.params, Scoped(code), ScopeOf(code));
    EnteredFinds(layers, code.options, code.params, Scoped(code), ScopeOf(code), l, name);
    EnteredOnTop(layers, code.options, code.params, Scoped(code), ScopeOf(code));
    BodyAssigns(num, entered, name, value);
    AssignableIff(num, entered, name, value, l);
    if Assign(num, entered, name, value).failure.Some? {
      FailedAssignChangesNothing(num, entered, name, value);
    }
    hide Entered, Left;
    CallOf(num, layers, code);
  }

  lemma CallOf(num: Numbers, layers: seq<Layer>, code: Code)
    requires code.CallFn? && code.access == None && |layers| > 0
    ensures var r := EndText(Run(num, Entered(layers, code.options, code.params, Scoped(code), ScopeOf(code)),
              code.body));
            Run(num, layers, code) == Return(layers, r, Scoped(code))
  {
    hide Entered, Left;
  }

  /** A page with a private string. */
  const PAGE := EMPTY.(typeOf := map["x" := "string"], privates := {"x"}, inScopes := map["x" := {""}])

  /** A call that assigns it from a function of some scope. */
  lemma AssignsPrivateIff(num: Numbers, code: Code, value: string)
    requires code.CallFn? && code.access == None && code.body == Do(Equals(["x"], value))
    ensures Run(num, [PAGE], code).outcome == if ScopeOf(code) == "" then Normal else Failed
  {
    FoundBy([PAGE], "x", 0);
    assert Assignable(num, "string", value);
    hide Run, ScopeOf, FindVar, Assignable;
    CallAssignsIff(num, [PAGE], code, "x", value, 0);
  }

  /** A page's private string is out of reach of a function of another scope. */
  lemma PrivateOutOfReach(num: Numbers, value: string)
    ensures Run(num, [PAGE], CallFn([], [], None, true, "lib.set", Do(Equals(["x"], value)))).outcome == Failed
  {
    var name := "lib.set";
    assert name[3] == '.';
    hide Run;
    AssignsPrivateIff(num, CallFn([], [], None, true, name, Do(Equals(["x"], value))), value);
  }

  /**
   A function without a dot in its name sets the page's private string when it is called with a
   layer of its own, and cannot without one: it then runs under the first letter of its name.
   */
  lemma UnscopedCallIsRefused(num: Numbers, value: string)
    ensures var body := Do(Equals(["x"], value));
            && Run(num, [PAGE], CallFn(["s"], [], None, true, "set", body)).outcome == Normal
            && Run(num, [PAGE], CallFn(["!s"], [], None, true, "set", body)).outcome == Failed
  {
    var body := Do(Equals(["x"], value));
    PlainNameScopes("set");
    assert "set"[0] == 's';
    LastOptionDecides(["s"], true, 0);
    LastOptionDecides(["!s"], true, 0);
    hide Run, FunctionScope, ScopedBy;
    AssignsPrivateIff(num, CallFn(["s"], [], None, true, "set", body), value);
    AssignsPrivateIff(num, CallFn(["!s"], [], None, true, "set", body), value);
  }

  // ---- After a call that left a layer behind ----

  /**
   A scoped function that returns from within a for loop leaves its own layer, so the caller
   goes on under the function's scope, and reaches what is private to it.
   */
  lemma ScopeStaysAfterLeak(num: Numbers, layers: seq<Layer>, options: seq<string>, params: seq<string>, name: string)
    requires |layers| > 0 && WellDeclared(layers) && Callable(layers[0]) && ScopedBy(options, true)
    ensures var loop := For(true, Nothing, Turn(ReturnOut, Nothing, Stop), Nothing);
            var r := Run(num, layers, CallFn(options, params, None, true, name, loop));
            r.outcome == Normal && |r.layers| == |layers| + 1 && TopScope(r.layers) == FunctionScope(name, true)
  {
    var loop := For(true, Nothing, Turn(ReturnOut, Nothing, Stop), Nothing);
    var call, scope := CallFn(options, params, None, true, name, loop), FunctionScope(name, true);
    var entered := Entered(layers, options, params, true, scope);
    ReturnInForLeaks(num, layers, options, params, name);
    EnteredOnTop(layers, options, params, true, scope);
    LoopScopes(entered, scope);
    CodeStaysWithin(num, entered, loop, |layers|, {scope});
    CallOf(num, layers, call);
    hide Run, Entered;
    LeftTop(layers, EndText(Run(num, entered, loop)).layers, {scope});
  }

  lemma LoopScopes(layers: seq<Layer>, scope: string)
    ensures CallScopesOf(For(true, Nothing, Turn(ReturnOut, Nothing, Stop), Nothing)) <= {scope}
  {
    assert TurnScopes(Stop) == {} && CallScopesOf(Nothing) == {} && CallScopesOf(ReturnOut) == {};
    assert TurnScopes(Turn(ReturnOut, Nothing, Stop)) == {};
  }

  lemma LeftTop(before: seq<Layer>, after: seq<Layer>, scopes: set<string>)
    requires |before| > 0 && |after| == |before| + 2 && ScopesWithin(after, |before|, scopes)
    ensures var left := Left(before, after, true); |left| == |before| + 1 && TopScope(left) in scopes
  {
    hide Revert, Save;
  }
}
