/**
 Saving and restoring params and options in one global layer behaves like a call stack: every
 body sees its own, and the caller's come back as they were. The layer stack itself is restored
 but for the layers of for loops left by return or exit, which are counted.
 */
module CallStack {
  import opened Calls
  import opened FunctionScopes
  import opened GuardedStore
  import opened Results
  import opened Variables

  // ---- A call stack ----

  /** What code comes to when each call has a frame of its own: what is seen, how it ends, the layers left behind. */
  datatype Plan = Plan(seen: seq<Seen>, outcome: Outcome, leaked: nat)

  function EndPlan(p: Plan): Plan {
    if p.outcome == Continued then p.(outcome := Normal) else p
  }

  function Before(first: Plan, second: Plan): Plan {
    Plan(first.seen + second.seen, second.outcome, first.leaked + second.leaked)
  }

  function Stack(frame: Seen, code: Code): Plan
    decreases code, 1
  {
    match code
    case Nothing => Plan([], Normal, 0)
    case Then(first, rest) =>
      var p := Stack(frame, first);
      if p.outcome != Normal then p else Before(p, Stack(frame, rest))
    case Look => Plan([frame], Normal, 0)
    case Do(_) => Plan([], Normal, 0)
    case CallFn(options, params, _, _, _, body) => Stack(Seen(options, params), body).(outcome := Normal)
    case BreakOut => Plan([], Broke, 0)
    case ReturnOut => Plan([], Returned, 0)
    case ExitOut => Plan([], Exited, 0)
    case ContinueOut => Plan([], Continued, 0)
    case Fail => Plan([], Failed, 0)
    case If(_, block) => EndPlan(Stack(frame, block))
    case While(_, turns) => StackTurns(frame, turns)
    case For(scoped, before, turns, after) =>
      var p := EndPlan(Stack(frame, before));
      var t := Before(p, StackTurns(frame, turns));
      if t.outcome != Normal then t.(leaked := t.leaked + if scoped then 1 else 0)
      else Before(t, EndPlan(Stack(frame, after)))
  }

  function StackTurn(frame: Seen, turn: Turns): Plan
    requires turn.Turn?
    decreases turn, 0
  {
    var p := EndPlan(Stack(frame, turn.block));
    if p.outcome != Normal then p
    else
      var s := Before(p, EndPlan(Stack(frame, turn.step)));
      if s.outcome != Normal then s.(outcome := Failed) else s
  }

  function StackTurns(frame: Seen, turns: Turns): Plan
    decreases turns, 1
  {
    match turns
    case Stop => Plan([], Normal, 0)
    case BadCondition => Plan([], Failed, 0)
    case Turn(_, _, rest) =>
      var p := StackTurn(frame, turns);
      if p.outcome == Broke then p.(outcome := Normal)
      else if p.outcome != Normal then p
      else Before(p, StackTurns(frame, rest))
  }

  // ---- Layer 0 during a call ----

  /** A variable that is a constant vector of strings with this value. */
  ghost predicate Bound(layer: Layer, name: string, value: seq<string>) {
    && name in layer.typeOf && layer.typeOf[name] == STRINGS
    && name in layer.constants && Get(layer, StrVecs, name) == TextList(value)
  }

  ghost predicate InCall(layers: seq<Layer>, frame: Seen) {
    && |layers| > 0 && WellDeclared(layers)
    && Bound(layers[0], "options", frame.options) && Bound(layers[0], "params", frame.params)
  }

  /** A variable with its type and flags. */
  ghost predicate SameFlagged(a: Layer, b: Layer, name: string) {
    && SameVar(a, b, name)
    && (name in a.constants <==> name in b.constants) && (name in a.privates <==> name in b.privates)
  }

  ghost predicate KeepsFrame(a: Layer, b: Layer) {
    SameFlagged(a, b, "options") && SameFlagged(a, b, "params")
  }

  ghost predicate SameScopes(before: seq<Layer>, after: seq<Layer>) {
    |before| <= |after| && forall l | 0 <= l < |before| :: after[l].scope == before[l].scope
  }

  /** What running code in a call must come to. */
  ghost predicate Follows(layers: seq<Layer>, r: Ran, frame: Seen, p: Plan)
    requires |layers| > 0
  {
    r.outcome != Failed ==>
      && InCall(r.layers, frame) && KeepsFrame(layers[0], r.layers[0])
      && r.seen == p.seen && r.outcome == p.outcome
      && |r.layers| == |layers| + p.leaked && SameScopes(layers, r.layers)
  }

  lemma KeepsFrameThen(a: Layer, b: Layer, c: Layer)
    requires KeepsFrame(a, b) && KeepsFrame(b, c)
    ensures KeepsFrame(a, c)
  {
    hide Get;
  }

  lemma KeepsFrameItself(a: Layer)
    ensures KeepsFrame(a, a)
  {
  }

  /** One piece of code after another. */
  lemma FollowsThen(layers: seq<Layer>, r: Ran, frame: Seen, p: Plan, next: Ran, q: Plan)
    requires |layers| > 0 && r.outcome == Normal && |r.layers| > 0
    requires Follows(layers, r, frame, p) && Follows(r.layers, next, frame, q)
    ensures Follows(layers, Earlier(r.seen, next), frame, Before(p, q))
  {
    hide InCall, KeepsFrame;
    if next.outcome != Failed {
      KeepsFrameThen(layers[0], r.layers[0], next.layers[0]) by { InCallSome(next.layers, frame); }
      assert forall l | 0 <= l < |layers| :: next.layers[l].scope == r.layers[l].scope;
    }
  }

  lemma InCallSome(layers: seq<Layer>, frame: Seen)
    requires InCall(layers, frame)
    ensures |layers| > 0
  {
  }

  /** Code that has ended otherwise is not gone on with. */
  lemma FollowsStops(layers: seq<Layer>, r: Ran, frame: Seen, p: Plan, q: Plan)
    requires |layers| > 0 && Follows(layers, r, frame, p)
    ensures r.outcome != Normal ==> Follows(layers, r, frame, if p.outcome != Normal then p else q)
  {
    hide InCall, KeepsFrame, SameScopes;
  }

  lemma FollowsOn(layers: seq<Layer>, r: Ran, frame: Seen, p: Plan)
    requires |layers| > 0 && Follows(layers, r, frame, p) && r.outcome == Normal
    ensures |r.layers| > 0 && InCall(r.layers, frame) && p.outcome == Normal
  {
  }

  lemma FollowsEnd(layers: seq<Layer>, r: Ran, frame: Seen, p: Plan)
    requires |layers| > 0 && Follows(layers, r, frame, p)
    ensures Follows(layers, EndText(r), frame, EndPlan(p))
  {
    hide InCall, KeepsFrame;
  }

  // ---- Blocks in a layer of their own ----

  lemma PushedInCall(layers: seq<Layer>, scoped: bool, frame: Seen)
    requires InCall(layers, frame)
    ensures var pushed := Pushed(layers, scoped);
            InCall(pushed, frame) && pushed[0] == layers[0] && SameScopes(layers, pushed)
            && |pushed| == |layers| + if scoped then 1 else 0
  {
  }

  /** A block in a layer of its own, when it has left as many layers as it leaks. */
  lemma PoppedFollows(layers: seq<Layer>, scoped: bool, r: Ran, frame: Seen, p: Plan)
    requires InCall(layers, frame) && |r.layers| > 0
    requires Follows(Pushed(layers, scoped), r, frame, p)
    ensures Follows(layers, r.(layers := Popped(r.layers, scoped)), frame, p)
  {
    hide Bound, KeepsFrame, Get;
    PushedInCall(layers, scoped, frame);
    if r.outcome != Failed {
      var popped := Popped(r.layers, scoped);
      assert popped[0] == r.layers[0];
      assert forall l | 0 <= l < |popped| :: popped[l] == r.layers[l];
      assert forall l | 0 <= l < |layers| :: Pushed(layers, scoped)[l].scope == layers[l].scope;
    }
  }

  // ---- Statements ----

  lemma DoneScopes(num: Numbers, layers: seq<Layer>, op: Op)
    requires |layers| > 0 && IsStatement(op) && Enabled(layers, op)
    ensures var after := Apply(num, layers, op);
            |after| == |layers| && SameScopes(layers, after)
  {
    if IsGuardedOp(op) {
      GuardedOps(num, layers, op);
      assert forall l | 0 <= l < |layers| :: SameFlags(layers[l], Apply(num, layers, op)[l]);
    } else if op.Vector? {
      VectorChangesOnly(num, layers, op.name, op.member, op.update);
      assert forall l | 0 <= l < |layers| :: SameFlags(layers[l], Apply(num, layers, op)[l]);
    }
  }

  lemma NeverBackup(op: Op, name: string)
    requires name == "options" || name == "params"
    ensures !MeansBackup(op, name)
  {
    if op.Vector? {
      NotItsBackup(name, op.name);
    }
  }

  lemma StatementKeeps(num: Numbers, layers: seq<Layer>, op: Op, name: string)
    requires |layers| > 0 && WellDeclared(layers) && IsStatement(op) && Enabled(layers, op)
    requires name in layers[0].constants && (name == "options" || name == "params")
    ensures |Apply(num, layers, op)| > 0 && SameFlagged(layers[0], Apply(num, layers, op)[0], name)
  {
    hide Apply, SameVar;
    DoneScopes(num, layers, op);
    assert !MeansBackup(op, name) by { NeverBackup(op, name); }
    OpKeepsConstant(num, layers, op, 0, name);
    OpKeepsFlags(num, layers, op, 0);
    assert name in layers[0].typeOf;
  }

  lemma StatementFollows(num: Numbers, layers: seq<Layer>, op: Op, frame: Seen)
    requires InCall(layers, frame)
    ensures Follows(layers, Run(num, layers, Do(op)), frame, Plan([], Normal, 0))
  {
    hide Performed;
    if IsStatement(op) && Enabled(layers, op) {
      DoneScopes(num, layers, op);
      OpKeepsDeclared(num, layers, op);
      StatementKeeps(num, layers, op, "options");
      StatementKeeps(num, layers, op, "params");
    }
  }

  // ---- Calls ----

  /** Vectors of strings are stored as such; what typed maps give. */
  predicate TextVectors(layer: Layer) {
    Get(layer, StrVecs, "options").TextList? && Get(layer, StrVecs, "params").TextList?
  }

  lemma BindBinds(layer: Layer, name: string, value: seq<string>)
    requires name == "options" || name == "params"
    ensures var b := Bind(layer, name, value);
            && Bound(b, name, value) && (name in b.privates <==> name in layer.privates)
            && (forall store | store != StrVecs :: Get(b, store, name) == Get(layer, store, name))
            && (layer.constants <= layer.typeOf.Keys && layer.privates <= layer.typeOf.Keys ==>
                  b.constants <= b.typeOf.Keys && b.privates <= b.typeOf.Keys)
  {
    NotItsBackup(name, name);
  }

  /** A name is not the backup of options or params unless it starts with an underscore. */
  lemma NotItsBackup(name: string, other: string)
    requires name == "options" || name == "params"
    ensures "__" + other != name
  {
    assert ("__" + other)[0] == '_';
  }

  lemma BindLeavesOther(layer: Layer, name: string, value: seq<string>, other: string)
    requires (name == "options" && other == "params") || (name == "params" && other == "options")
    ensures SameFlagged(layer, Bind(layer, name, value), other)
              && InScopes(layer, other) == InScopes(Bind(layer, name, value), other)
  {
    NotItsBackup(other, name);
  }

  lemma EnteredInCall(layers: seq<Layer>, options: seq<string>, params: seq<string>, scoped: bool, scope: string)
    requires |layers| > 0 && WellDeclared(layers)
    ensures InCall(Entered(layers, options, params, scoped, scope), Seen(options, params))
  {
    hide Bind, Bound, SameVar, Get;
    var top := |layers| - 1;
    var framed := if scoped then layers + [EMPTY.(scope := scope)] else layers[top := layers[top].(scope := scope)];
    var middle := Bind(framed[0], "options", options);
    BindBinds(framed[0], "options", options);
    BindBinds(middle, "params", params);
    BindLeavesOther(middle, "params", params, "options");
    var entered := Entered(layers, options, params, scoped, scope);
    BoundStays(middle, entered[0], "options", options);
    assert forall l | 0 < l < |entered| :: entered[l].constants == framed[l].constants
             && entered[l].privates == framed[l].privates
                                         && entered[l].typeOf == framed[l].typeOf;
  }

  lemma BoundStays(a: Layer, b: Layer, name: string, value: seq<string>)
    requires Bound(a, name, value) && SameFlagged(a, b, name)
    ensures Bound(b, name, value)
  {
  }

  /** What can be seen of a variable: its type, its value of that type, and its flags. */
  datatype Visible = Visible(varType: Option<string>, cell: Option<Cell>, constant: bool, isPrivate: bool)

  function StoreOf(varType: string): Option<Store> {
    if varType == "std::bool" then Some(Bools)
    else if varType == "std::int" then Some(Ints)
    else if varType == "std::llint" then Some(Llints)
    else if varType == "std::double" || varType == "bool" || varType == "int" || varType == "double" then Some(Doubles)
    else if varType == "std::char" then Some(Chars)
    else if varType == "std::string" || varType == "char" || varType == "string" then Some(Strings)
    else if varType == "std::vector<double>" then Some(DoubVecs)
    else if varType == STRINGS then Some(StrVecs)
    else None
  }

  function See(layer: Layer, name: string): Visible {
    if name !in layer.typeOf then Visible(None, None, name in layer.constants, name in layer.privates)
    else
      var store := StoreOf(layer.typeOf[name]);
      Visible(Some(layer.typeOf[name]), if store.Some? then Some(Get(layer, store.value, name)) else None,
              name in layer.constants, name in layer.privates)
  }

  /** Reverting a variable brings back what the caller saw, and everything when it was a call's own. */
  lemma RevertIsExact(before: Layer, bound: Layer, after: Layer, name: string, value: seq<string>)
    requires name == "options" || name == "params"
    requires before.constants <= before.typeOf.Keys && before.privates <= before.typeOf.Keys
    requires name in before.typeOf ==> before.typeOf[name] != ""
    requires Get(before, StrVecs, name).TextList?
    requires Bound(bound, name, value) && (name in bound.privates <==> name in before.privates)
    requires forall store | store != StrVecs :: Get(bound, store, name) == Get(before, store, name)
    requires SameFlagged(bound, after, name)
    ensures See(Revert(after, name, Save(before, name)), name) == See(before, name)
    ensures name in before.typeOf && before.typeOf[name] == STRINGS ==>
              SameFlagged(before, Revert(after, name, Save(before, name)), name)
  {
    NotItsBackup(name, name);
    var reverted := Revert(after, name, Save(before, name));
    assert forall store | store != StrVecs :: Get(reverted, store, name) == Get(after, store, name);
    if name in before.typeOf && before.typeOf[name] == STRINGS {
      assert Get(reverted, StrVecs, name) == TextList(TextsOf(before, name)) == Get(before, StrVecs, name);
    }
  }

  lemma RevertLeavesOther(layer: Layer, name: string, saved: Saved, other: string)
    requires (name == "options" && other == "params") || (name == "params" && other == "options")
    ensures SameFlagged(layer, Revert(layer, name, saved), other)
  {
    NotItsBackup(other, name);
  }

  predicate LayerDeclared(layer: Layer) {
    layer.constants <= layer.typeOf.Keys && layer.privates <= layer.typeOf.Keys
  }

  /** The layer a call finds its caller's params and options in. */
  predicate Callable(layer: Layer) {
    && LayerDeclared(layer) && TextVectors(layer)
    && ("options" in layer.typeOf ==> layer.typeOf["options"] != "")
    && ("params" in layer.typeOf ==> layer.typeOf["params"] != "")
  }

  lemma RevertDeclared(layer: Layer, name: string, before: Layer)
    requires LayerDeclared(layer) && LayerDeclared(before) && name in layer.typeOf
    requires name in before.typeOf ==> before.typeOf[name] != ""
    ensures LayerDeclared(Revert(layer, name, Save(before, name)))
  {
  }

  /** What a call has done to one of the caller's variables by the time its body starts. */
  ghost predicate Rebound(before: Layer, bound: Layer, name: string, value: seq<string>) {
    && Bound(bound, name, value) && (name in bound.privates <==> name in before.privates)
    && forall store | store != StrVecs :: Get(bound, store, name) == Get(before, store, name)
  }

  lemma EnteredRebinds(layers: seq<Layer>, options: seq<string>, params: seq<string>, scoped: bool, scope: string)
    requires |layers| > 0
    ensures var entered := Entered(layers, options, params, scoped, scope);
            Rebound(layers[0], entered[0], "options", options) && Rebound(layers[0], entered[0], "params", params)
  {
    hide Bind, Bound, SameVar;
    var top := |layers| - 1;
    var framed := if scoped then layers + [EMPTY.(scope := scope)] else layers[top := layers[top].(scope := scope)];
    assert framed[0].values == layers[0].values && framed[0].privates == layers[0].privates;
    var middle := Bind(framed[0], "options", options);
    BindBinds(framed[0], "options", options);
    BindBinds(middle, "params", params);
    BindLeavesOther(framed[0], "options", options, "params");
    BindLeavesOther(middle, "params", params, "options");
    var entered := Entered(layers, options, params, scoped, scope);
    BoundStays(middle, entered[0], "options", options);
    SameCells(middle, entered[0], "options");
    SameCells(framed[0], middle, "params");
  }

  lemma SameCells(a: Layer, b: Layer, name: string)
    requires SameFlagged(a, b, name)
    ensures forall store: Store :: Get(a, store, name) == Get(b, store, name)
    ensures name in a.privates <==> name in b.privates
  {
  }

  /** Layer 0 after a call, given that the body kept the call's own variables. */
  lemma RevertedLayer(before: Layer, bound: Layer, after: Layer, options: seq<string>, params: seq<string>)
    requires Callable(before) && LayerDeclared(after)
    requires Rebound(before, bound, "options", options) && Rebound(before, bound, "params", params)
    requires KeepsFrame(bound, after)
    ensures var middle := Revert(after, "options", Save(before, "options"));
            var left := Revert(middle, "params", Save(before, "params"));
            && LayerDeclared(left)
            && See(left, "options") == See(before, "options") && See(left, "params") == See(before, "params")
            && (InVector(before, "options") ==> SameFlagged(before, left, "options"))
            && (InVector(before, "params") ==> SameFlagged(before, left, "params"))
  {
    hide Revert, Save, SameVar, Get, See;
    var middle := Revert(after, "options", Save(before, "options"));
    var left := Revert(middle, "params", Save(before, "params"));
    assert TextVectors(before);
    RevertIsExact(before, bound, after, "options", options);
    RevertLeavesOther(after, "options", Save(before, "options"), "params");
    FlaggedThen(bound, after, middle, "params");
    RevertIsExact(before, bound, middle, "params", params);
    RevertLeavesOther(middle, "params", Save(before, "params"), "options");
    SeenSame(middle, left, "options");
    if InVector(before, "options") {
      FlaggedThen(before, middle, left, "options");
    }
    DeclaredInBody(bound, after);
    RevertDeclared(after, "options", before);
    ParamsStayDeclared(after, middle);
    RevertDeclared(middle, "params", before);
  }

  predicate InVector(layer: Layer, name: string) {
    name in layer.typeOf && layer.typeOf[name] == STRINGS
  }

  lemma DeclaredInBody(bound: Layer, after: Layer)
    requires KeepsFrame(bound, after) && "options" in bound.typeOf && "params" in bound.typeOf
    ensures "options" in after.typeOf && "params" in after.typeOf
  {
  }

  lemma ParamsStayDeclared(after: Layer, middle: Layer)
    requires SameFlagged(after, middle, "params") && "params" in after.typeOf
    ensures "params" in middle.typeOf
  {
  }

  lemma FlaggedThen(a: Layer, b: Layer, c: Layer, name: string)
    requires SameFlagged(a, b, name) && SameFlagged(b, c, name)
    ensures SameFlagged(a, c, name)
  {
    hide Get;
  }

  lemma SeenSame(a: Layer, b: Layer, name: string)
    requires SameFlagged(a, b, name)
    ensures See(a, name) == See(b, name)
  {
  }

  /** What a call must come to for its caller. */
  ghost predicate ComesBack(layers: seq<Layer>, r: Ran, p: Plan)
    requires |layers| > 0
  {
    r.outcome != Failed ==>
      && r.outcome == Normal && r.seen == p.seen
      && |r.layers| == |layers| + p.leaked && SameScopes(layers, r.layers) && WellDeclared(r.layers)
      && See(r.layers[0], "options") == See(layers[0], "options")
      && See(r.layers[0], "params") == See(layers[0], "params")
      && (InVector(layers[0], "options") ==> SameFlagged(layers[0], r.layers[0], "options"))
      && (InVector(layers[0], "params") ==> SameFlagged(layers[0], r.layers[0], "params"))
  }

  /** The body's layers without the call's own layer or scope. */
  function Unframed(before: seq<Layer>, after: seq<Layer>, scoped: bool): seq<Layer>
    requires |before| > 0 && |after| >= |before| + if scoped then 1 else 0
  {
    var top := |before| - 1;
    if scoped then after[..|after| - 1] else after[top := after[top].(scope := before[top].scope)]
  }

  lemma UnframedKeeps(layers: seq<Layer>, entered: seq<Layer>, after: seq<Layer>, scoped: bool, frame: Seen)
    requires |layers| > 0 && |entered| == |layers| + if scoped then 1 else 0
    requires forall l | 0 <= l < |layers| - 1 || (scoped && l == |layers| - 1) :: entered[l].scope == layers[l].scope
    requires InCall(after, frame) && SameScopes(entered, after) && KeepsFrame(entered[0], after[0])
    ensures var unframed := Unframed(layers, after, scoped);
            && |unframed| == |after| - (if scoped then 1 else 0) && SameScopes(layers, unframed)
            && WellDeclared(unframed)
            && KeepsFrame(entered[0], unframed[0]) && LayerDeclared(unframed[0])
  {
    hide SameVar, Bound;
    var unframed := Unframed(layers, after, scoped);
    assert SameFlagged(after[0], unframed[0], "options") && SameFlagged(after[0], unframed[0], "params") by {
      ScopeChangesNothing(after[0], unframed[0].scope, "options");
      ScopeChangesNothing(after[0], unframed[0].scope, "params");
      assert unframed[0] == after[0].(scope := unframed[0].scope);
    }
    KeepsFrameThen(entered[0], after[0], unframed[0]);
  }

  lemma ScopeChangesNothing(layer: Layer, scope: string, name: string)
    ensures SameFlagged(layer, layer.(scope := scope), name)
  {
  }

  lemma EnteredScopes(layers: seq<Layer>, options: seq<string>, params: seq<string>, scoped: bool, scope: string)
    requires |layers| > 0
    ensures var entered := Entered(layers, options, params, scoped, scope);
            forall l | 0 <= l < |layers| - 1 || (scoped && l == |layers| - 1) :: entered[l].scope == layers[l].scope
  {
    hide Save;
  }

  lemma LeftLayers(layers: seq<Layer>, after: seq<Layer>, scoped: bool)
    requires |layers| > 0 && |after| >= |layers| + if scoped then 1 else 0
    requires var unframed := Unframed(layers, after, scoped);
             && SameScopes(layers, unframed) && WellDeclared(unframed)
             && LayerDeclared(Revert(Revert(unframed[0], "options", Save(layers[0], "options")), "params",
                 Save(layers[0], "params")))
    ensures var unframed, left := Unframed(layers, after, scoped), Left(layers, after, scoped);
            && |left| == |unframed| && SameScopes(layers, left) && WellDeclared(left)
            && left[0] == Revert(Revert(unframed[0], "options", Save(layers[0], "options")), "params",
                Save(layers[0], "params"))
  {
    hide Save;
    var unframed, left := Unframed(layers, after, scoped), Left(layers, after, scoped);
    assert forall l | 0 < l < |left| :: left[l] == unframed[l];
    assert left[0].scope == unframed[0].scope;
  }

  /** A call whose body keeps to its frame comes back to its caller. */
  lemma CallComesBack(num: Numbers, layers: seq<Layer>, code: Code)
    requires code.CallFn? && |layers| > 0 && WellDeclared(layers) && Callable(layers[0])
    requires var frame := Seen(code.options, code.params);
             var entered := Entered(layers, code.options, code.params, Scoped(code), ScopeOf(code));
             Follows(entered, Run(num, entered, code.body), frame, Stack(frame, code.body))
    ensures ComesBack(layers, Run(num, layers, code), Stack(Seen(code.options, code.params), code.body))
  {
    hide Entered, InCall, KeepsFrame, Stack, Left, See, SameFlagged, Revert, Save, Callable, SameScopes, WellDeclared;
    var frame := Seen(code.options, code.params);
    var entered := Entered(layers, code.options, code.params, Scoped(code), ScopeOf(code));
    var r := EndText(Run(num, entered, code.body));
    if r.outcome != Failed {
      EnteredScopes(layers, code.options, code.params, Scoped(code), ScopeOf(code));
      UnframedKeeps(layers, entered, r.layers, Scoped(code), frame);
      EnteredRebinds(layers, code.options, code.params, Scoped(code), ScopeOf(code));
      var unframed := Unframed(layers, r.layers, Scoped(code));
      RevertedLayer(layers[0], entered[0], unframed[0], code.options, code.params);
      LeftLayers(layers, r.layers, Scoped(code));
    }
  }

  lemma InCallCallable(layers: seq<Layer>, frame: Seen)
    requires InCall(layers, frame)
    ensures WellDeclared(layers) && Callable(layers[0]) && InVector(layers[0], "options")
              && InVector(layers[0], "params")
  {
  }

  /** A call made from within a call. */
  lemma NestedCallFollows(num: Numbers, layers: seq<Layer>, code: Code, frame: Seen)
    requires code.CallFn? && InCall(layers, frame)
    requires ComesBack(layers, Run(num, layers, code), Stack(Seen(code.options, code.params), code.body))
    ensures Follows(layers, Run(num, layers, code), frame, Stack(frame, code))
  {
    hide SameFlagged, See, Run, Bound, SameScopes;
    InCallCallable(layers, frame);
    var r := Run(num, layers, code);
    if r.outcome != Failed {
      BoundStays(layers[0], r.layers[0], "options", frame.options);
      BoundStays(layers[0], r.layers[0], "params", frame.params);
    }
  }

  // ---- The theorems ----

  /**
   Calls match a call stack. Within a call, code that does not fail sees what a stack of frames
   would show it, ends as it would, and leaves the caller's frame in layer 0 as it was; the
   layers below keep their scopes, and what is left above them are the layers of for loops
   left early.
   */
  lemma {:induction false} MatchesCallStack(num: Numbers, layers: seq<Layer>, code: Code, frame: Seen)
    requires InCall(layers, frame)
    ensures Follows(layers, Run(num, layers, code), frame, Stack(frame, code))
    decreases code, 1
  {
    InCallSome(layers, frame);
    hide InCall, KeepsFrame, Follows, Entered, Performed, Enabled;
    match code
    case Then(first, rest) => SequenceFollows(num, layers, first, rest, frame);
    case Do(op) => StatementFollows(num, layers, op, frame);
    case CallFn(options, params, _, _, _, body) =>
      var scoped, scope := Scoped(code), ScopeOf(code);
      InCallCallable(layers, frame);
      EnteredInCall(layers, options, params, scoped, scope);
      MatchesCallStack(num, Entered(layers, options, params, scoped, scope), body, Seen(options, params));
      CallComesBack(num, layers, code);
      NestedCallFollows(num, layers, code, frame);
    case If(scoped, block) =>
      BlockFollows(num, layers, scoped, block, frame);
    case While(scoped, turns) => TurnsFollow(num, layers, scoped, turns, frame);
    case For(scoped, before, turns, after) => ForFollows(num, layers, code, frame);
    case _ => SimpleFollows(num, layers, code, frame);
  }

  lemma SimpleFollows(num: Numbers, layers: seq<Layer>, code: Code, frame: Seen)
    requires InCall(layers, frame)
    requires code.Nothing? || code.Look? || code.BreakOut? || code.ReturnOut? || code.ExitOut? || code.ContinueOut?
               || code.Fail?
    ensures Follows(layers, Run(num, layers, code), frame, Stack(frame, code))
  {
    KeepsFrameItself(layers[0]);
  }

  lemma ThenRuns(num: Numbers, layers: seq<Layer>, first: Code, rest: Code, frame: Seen)
    requires |layers| > 0
    ensures var r, p := Run(num, layers, first), Stack(frame, first);
            && Run(num, layers, Then(first, rest)) ==
                (if r.outcome != Normal then r else Earlier(r.seen, Run(num, r.layers, rest)))
            && Stack(frame, Then(first, rest)) == (if p.outcome != Normal then p else Before(p, Stack(frame, rest)))
  {
    hide RunTurns, RunFor, StackTurns, Entered, Left, Performed;
  }

  lemma {:induction false} SequenceFollows(num: Numbers, layers: seq<Layer>, first: Code, rest: Code, frame: Seen)
    requires InCall(layers, frame)
    ensures Follows(layers, Run(num, layers, Then(first, rest)), frame, Stack(frame, Then(first, rest)))
    decreases Then(first, rest), 0
  {
    InCallSome(layers, frame);
    ThenRuns(num, layers, first, rest, frame);
    hide InCall, KeepsFrame, Follows, Run, Stack, Before, SameScopes;
    MatchesCallStack(num, layers, first, frame);
    var r := Run(num, layers, first);
    FollowsStops(layers, r, frame, Stack(frame, first), Before(Stack(frame, first), Stack(frame, rest)));
    if r.outcome == Normal {
      FollowsOn(layers, r, frame, Stack(frame, first));
      MatchesCallStack(num, r.layers, rest, frame);
      FollowsThen(layers, r, frame, Stack(frame, first), Run(num, r.layers, rest), Stack(frame, rest));
    }
  }

  /** A text executed in a layer of its own. */
  lemma {:induction false} BlockFollows(num: Numbers, layers: seq<Layer>, scoped: bool, block: Code, frame: Seen)
    requires InCall(layers, frame)
    ensures |Pushed(layers, scoped)| > 0
    ensures var r := EndText(Run(num, Pushed(layers, scoped), block));
            Follows(layers, r.(layers := Popped(r.layers, scoped)), frame, EndPlan(Stack(frame, block)))
    decreases block, 2
  {
    InCallSome(layers, frame);
    hide InCall, KeepsFrame, Follows, Run, Stack;
    PushedInCall(layers, scoped, frame);
    var pushed := Pushed(layers, scoped);
    MatchesCallStack(num, pushed, block, frame);
    FollowsEnd(pushed, Run(num, pushed, block), frame, Stack(frame, block));
    PoppedFollows(layers, scoped, EndText(Run(num, pushed, block)), frame, EndPlan(Stack(frame, block)));
  }

  lemma {:induction false} TextFollows(num: Numbers, layers: seq<Layer>, code: Code, frame: Seen)
    requires InCall(layers, frame)
    ensures |layers| > 0 && Follows(layers, EndText(Run(num, layers, code)), frame, EndPlan(Stack(frame, code)))
    decreases code, 2
  {
    hide KeepsFrame, Follows, Run, Stack;
    MatchesCallStack(num, layers, code, frame);
    FollowsEnd(layers, Run(num, layers, code), frame, Stack(frame, code));
  }

  lemma {:induction false} TurnFollows(num: Numbers, layers: seq<Layer>, scoped: bool, turn: Turns, frame: Seen)
    requires InCall(layers, frame) && turn.Turn?
    ensures |layers| > 0 && Follows(layers, RunTurn(num, layers, scoped, turn), frame, StackTurn(frame, turn))
    decreases turn, 0
  {
    hide KeepsFrame, Run, Stack, Bound;
    BlockFollows(num, layers, scoped, turn.block, frame);
    var r := EndText(Run(num, Pushed(layers, scoped), turn.block));
    var b := r.(layers := Popped(r.layers, scoped));
    if b.outcome == Normal {
      TextFollows(num, b.layers, turn.step, frame);
      FollowsThen(layers, b, frame, EndPlan(Stack(frame, turn.block)),
                  EndText(Run(num, b.layers, turn.step)), EndPlan(Stack(frame, turn.step)));
    }
  }

  lemma {:induction false} TurnsFollow(num: Numbers, layers: seq<Layer>, scoped: bool, turns: Turns, frame: Seen)
    requires InCall(layers, frame)
    ensures |layers| > 0 && Follows(layers, RunTurns(num, layers, scoped, turns), frame, StackTurns(frame, turns))
    decreases turns, 1
  {
    hide KeepsFrame, Run, Stack, Bound, RunTurn, StackTurn;
    KeepsFrameItself(layers[0]);
    if !turns.Turn? {
    } else {
      TurnFollows(num, layers, scoped, turns, frame);
      var t := RunTurn(num, layers, scoped, turns);
      if t.outcome == Normal {
        TurnsFollow(num, t.layers, scoped, turns.rest, frame);
        FollowsThen(layers, t, frame, StackTurn(frame, turns),
                    RunTurns(num, t.layers, scoped, turns.rest), StackTurns(frame, turns.rest));
      }
    }
  }

  /** Code left without taking its layer off. */
  lemma LeakFollows(layers: seq<Layer>, scoped: bool, r: Ran, frame: Seen, p: Plan)
    requires InCall(layers, frame) && |Pushed(layers, scoped)| > 0
    requires Follows(Pushed(layers, scoped), r, frame, p)
    ensures Follows(layers, r, frame, p.(leaked := p.leaked + if scoped then 1 else 0))
  {
    hide Bound, KeepsFrame;
    PushedInCall(layers, scoped, frame);
    if r.outcome != Failed {
      assert forall l | 0 <= l < |layers| :: Pushed(layers, scoped)[l].scope == layers[l].scope;
    }
  }

  lemma {:induction false} ForFollows(num: Numbers, layers: seq<Layer>, code: Code, frame: Seen)
    requires code.For? && InCall(layers, frame)
    ensures |layers| > 0 && Follows(layers, Run(num, layers, code), frame, Stack(frame, code))
    decreases code, 0
  {
    hide KeepsFrame, RunTurns, StackTurns, Bound, WellDeclared, Pushed, Popped, SameScopes;
    PushedInCall(layers, code.scoped, frame);
    var pushed := Pushed(layers, code.scoped);
    TextFollows(num, pushed, code.before, frame);
    var r, p := EndText(Run(num, pushed, code.before)), EndPlan(Stack(frame, code.before));
    if r.outcome == Normal {
      TurnsFollow(num, r.layers, code.scoped, code.turns, frame);
      var turns, turnsPlan := RunTurns(num, r.layers, code.scoped, code.turns), StackTurns(frame, code.turns);
      FollowsThen(pushed, r, frame, p, turns, turnsPlan);
      var t, tp := Earlier(r.seen, turns), Before(p, turnsPlan);
      LeakFollows(layers, code.scoped, t, frame, tp);
      if t.outcome == Normal {
        TextFollows(num, t.layers, code.after, frame);
        var last, lastPlan := EndText(Run(num, t.layers, code.after)), EndPlan(Stack(frame, code.after));
        FollowsThen(pushed, t, frame, tp, last, lastPlan);
        PoppedFollows(layers, code.scoped, Earlier(t.seen, last), frame, Before(tp, lastPlan));
      }
    }
  }

  /**
   A call comes back. From any page, whatever types and flags its own params and options have
   there, a call that does not fail sees and does what a call stack would, leaves the page's
   params and options as they were, and leaves the layers of for loops left early.
   */
  lemma CallIsTransparent(num: Numbers, layers: seq<Layer>, code: Code)
    requires code.CallFn? && |layers| > 0 && WellDeclared(layers) && Callable(layers[0])
    ensures ComesBack(layers, Run(num, layers, code), Stack(Seen(code.options, code.params), code.body))
  {
    hide InCall, Run, Stack, Entered, Callable;
    EnteredInCall(layers, code.options, code.params, Scoped(code), ScopeOf(code));
    MatchesCallStack(num, Entered(layers, code.options, code.params, Scoped(code), ScopeOf(code)), code.body,
        Seen(code.options, code.params));
    CallComesBack(num, layers, code);
  }

  /** The number and scopes of the layers are what they were. */
  ghost predicate Restored(before: seq<Layer>, after: seq<Layer>) {
    |before| == |after| && SameScopes(before, after)
  }

  /** The layer stack is restored exactly when no for loop is left early. */
  lemma LayersRestoredIff(num: Numbers, layers: seq<Layer>, code: Code, frame: Seen)
    requires InCall(layers, frame) && Run(num, layers, code).outcome != Failed
    ensures Restored(layers, Run(num, layers, code).layers) <==> Stack(frame, code).leaked == 0
  {
    hide Run, Stack, KeepsFrame;
    MatchesCallStack(num, layers, code, frame);
  }

  /** Code without for loops: if, while and do-while restore the layers whatever way they end. */
  predicate WithoutFor(code: Code)
    decreases code
  {
    match code
    case Then(first, rest) => WithoutFor(first) && WithoutFor(rest)
    case CallFn(_, _, _, _, _, body) => WithoutFor(body)
    case If(_, block) => WithoutFor(block)
    case While(_, turns) => TurnsWithoutFor(turns)
    case For(_, _, _, _) => false
    case _ => true
  }

  predicate TurnsWithoutFor(turns: Turns)
    decreases turns
  {
    turns.Turn? ==> WithoutFor(turns.block) && WithoutFor(turns.step) && TurnsWithoutFor(turns.rest)
  }

  lemma {:induction false} OnlyForLeaks(frame: Seen, code: Code)
    requires WithoutFor(code)
    ensures Stack(frame, code).leaked == 0
    decreases code, 1
  {
    match code
    case Then(first, rest) => OnlyForLeaks(frame, first); OnlyForLeaks(frame, rest);
    case CallFn(options, params, _, _, _, body) => OnlyForLeaks(Seen(options, params), body);
    case If(_, block) => OnlyForLeaks(frame, block);
    case While(_, turns) => OnlyForLeaksTurns(frame, turns);
    case _ =>
  }

  lemma {:induction false} OnlyForLeaksTurns(frame: Seen, turns: Turns)
    requires TurnsWithoutFor(turns)
    ensures StackTurns(frame, turns).leaked == 0
    decreases turns, 1
  {
    if !turns.Turn? {
    } else {
      OnlyForLeaks(frame, turns.block);
      OnlyForLeaks(frame, turns.step);
      OnlyForLeaksTurns(frame, turns.rest);
    }
  }

  /**
   A for loop leaves a layer behind exactly when it has one of its own and its turns end in
   anything but the loop's end.
   */
  lemma ForLeaksIff(frame: Seen, scoped: bool, before: Code, turns: Turns, after: Code)
    requires WithoutFor(before) && TurnsWithoutFor(turns) && WithoutFor(after)
    ensures Stack(frame, For(scoped, before, turns, after)).leaked ==
            if scoped && StackTurns(frame, turns).outcome != Normal then 1 else 0
  {
    OnlyForLeaks(frame, before);
    OnlyForLeaksTurns(frame, turns);
    OnlyForLeaks(frame, after);
  }

  /**
   So a function that returns from within a for loop leaves its caller a layer more, and not the
   caller's own on top.
   */
  lemma ReturnInForLeaks(num: Numbers, layers: seq<Layer>, options: seq<string>, params: seq<string>, name: string)
    requires |layers| > 0 && WellDeclared(layers) && Callable(layers[0]) && ScopedBy(options, true)
    ensures var loop := For(true, Nothing, Turn(ReturnOut, Nothing, Stop), Nothing);
            var r := Run(num, layers, CallFn(options, params, None, true, name, loop));
            r.outcome == Normal && |r.layers| == |layers| + 1
  {
    var loop := For(true, Nothing, Turn(ReturnOut, Nothing, Stop), Nothing);
    var call := CallFn(options, params, None, true, name, loop);
    CallIsTransparent(num, layers, call);
    ForLeaksIff(Seen(options, params), true, Nothing, Turn(ReturnOut, Nothing, Stop), Nothing);
    ReturnsEarly(num, Entered(layers, options, params, true, FunctionScope(name, true)));
    hide *;
    CallOutcome(num, layers, options, params, name, loop);
    LoopPlan(Seen(options, params));
    CallSucceeds(layers, Run(num, layers, call), Stack(Seen(options, params), loop));
  }

  lemma LoopPlan(frame: Seen)
    ensures StackTurns(frame, Turn(ReturnOut, Nothing, Stop)).outcome == Returned
  {
    assert Stack(frame, ReturnOut) == Plan([], Returned, 0);
    assert StackTurn(frame, Turn(ReturnOut, Nothing, Stop)) == Plan([], Returned, 0);
  }

  lemma CallOutcome(num: Numbers, layers: seq<Layer>, options: seq<string>, params: seq<string>, name: string,
                    body: Code)
    requires |layers| > 0 && ScopedBy(options, true)
    requires Run(num, Entered(layers, options, params, true, FunctionScope(name, true)), body).outcome != Failed
    ensures Run(num, layers, CallFn(options, params, None, true, name, body)).outcome == Normal
  {
    hide Entered, Left;
  }

  lemma CallSucceeds(layers: seq<Layer>, r: Ran, p: Plan)
    requires |layers| > 0 && ComesBack(layers, r, p) && r.outcome != Failed
    ensures |r.layers| == |layers| + p.leaked
  {
  }

  lemma ReturnsEarly(num: Numbers, layers: seq<Layer>)
    requires |layers| > 0
    ensures Run(num, layers, For(true, Nothing, Turn(ReturnOut, Nothing, Stop), Nothing)).outcome == Returned
  {
    var pushed := Pushed(layers, true);
    assert EndText(Run(num, pushed, Nothing)) == Ran(pushed, [], Normal);
    assert Run(num, Pushed(pushed, true), ReturnOut).outcome == Returned;
    assert RunTurn(num, pushed, true, Turn(ReturnOut, Nothing, Stop)).outcome == Returned;
  }
}
