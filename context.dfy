/** The global state both passes share: the source files an import can name,
    the runtime and typing binding stacks, the diagnostics, the state the AST
    nodes keep between checking and evaluating, and the console. */
module Context {
  import opened Wrappers
  import opened Syntax
  import opened BuiltIns
  import opened Types
  import opened Overloads
  import opened Scopes
  import opened Values
  import opened Diagnostics
  import opened TypingRules
  import Runtime

  class Context {
    /** The parsed files an import can name, by path. */
    var sourceFiles: map<string, SourceFile>
    const scope: Scope<Value>
    const typingScope: Scope<Type>
    var typeErrors: seq<TypeError>

    // What the Kotlin AST objects keep in their own fields, by node number.
    /** `Addition.resolvedType`. */
    var resolvedTypes: map<nat, Type>
    /** `FunctionCall.resolvedCall` and `FunctionCall.resolvedArguments`. */
    var resolvedCalls: map<nat, Function>
    var resolvedArguments: map<nat, seq<Expr>>
    /** `FunctionCall.iioTypes`: the argument expressions to wrap, with the
        interface each is passed as. */
    var iioTypes: map<nat, map<Expr, Type>>
    /** `ConstructorCall.type`. */
    var constructedTypes: map<nat, Type>
    /** `FunctionDeclaration.function`. */
    var declaredFunctions: map<nat, Function>
    /** `InterfaceDeclaration.completeFunctions`. */
    var completeFunctions: map<nat, seq<Function>>
    /** `CustomFunction.parentScope`, by the function's declaration. */
    var parentScopes: map<nat, nat>

    /** What `printLine` was given, in order, and the lines `readLine` has still
        to return. */
    var output: seq<Value>
    var input: seq<string>

    ghost predicate Valid()
      reads this`parentScopes, scope, typingScope
    {
      scope.Valid() && typingScope.Valid() && scope as object != typingScope as object
      && forall d :: d in parentScopes ==> parentScopes[d] < |scope.layers|
    }

    /** The state at start-up: both stacks hold one empty layer. */
    constructor (input: seq<string>)
      ensures Valid() && fresh(scope) && fresh(typingScope)
      ensures sourceFiles == map[] && typeErrors == []
      ensures scope.stack == [0] && scope.layers == [Layer(map[], None)]
      ensures typingScope.stack == [0] && typingScope.layers == [Layer(map[], None)]
      ensures resolvedTypes == map[] && resolvedCalls == map[] && resolvedArguments == map[]
      ensures iioTypes == map[] && constructedTypes == map[] && declaredFunctions == map[]
      ensures completeFunctions == map[] && parentScopes == map[]
      ensures output == [] && this.input == input
    {
      sourceFiles := map[];
      scope := new Scope();
      typingScope := new Scope();
      typeErrors := [];
      resolvedTypes, resolvedCalls, resolvedArguments := map[], map[], map[];
      iioTypes, constructedTypes, declaredFunctions := map[], map[], map[];
      completeFunctions, parentScopes := map[], map[];
      output := [];
      this.input := input;
    }

    /** What a typing-scope `get` can see. */
    function TypingEnv(): map<string, Type>
      reads typingScope
      requires typingScope.Valid()
    {
      typingScope.Env()
    }

    /** What a runtime `get` can see. */
    function RuntimeEnv(): map<string, Value>
      reads scope
      requires scope.Valid()
    {
      scope.Env()
    }

    /** `resetContext`: forget the source files and the diagnostics, and leave each
        stack holding one new empty layer. Layers captured earlier are not
        destroyed, and the state kept by AST nodes is untouched. */
    method ResetContext()
      requires Valid()
      modifies this`sourceFiles, this`typeErrors, scope, typingScope
      ensures Valid()
      ensures sourceFiles == map[] && typeErrors == []
      ensures scope.layers == old(scope.layers) + [Layer(map[], None)] && scope.stack == [|old(scope.layers)|]
      ensures typingScope.layers == old(typingScope.layers) + [Layer(map[], None)]
      ensures typingScope.stack == [|old(typingScope.layers)|]
      ensures RuntimeEnv() == map[] && TypingEnv() == map[]
    {
      sourceFiles := map[];
      var runtimeLayer := scope.NewLayer();
      scope.stack := [runtimeLayer];
      FreshLayerVisible(old(scope.layers), None);
      var typingLayer := typingScope.NewLayer();
      typingScope.stack := [typingLayer];
      FreshLayerVisible(old(typingScope.layers), None);
      typeErrors := [];
    }

    /** `checkType`: append one `IncompatibleType` at `loc` when the declared type
        does not accept the actual one, judged against the typing scope. */
    method CheckType(declared: Type, actual: Type, loc: Loc) returns (r: Outcome<()>)
      requires Valid()
      modifies this`typeErrors
      ensures Valid()
      ensures r.Fail? <==> Incompatibility(declared, actual, TypingView(TypingEnv()), loc).Fail?
      ensures r.Fail? ==> r.failure == Incompatibility(declared, actual, TypingView(TypingEnv()), loc).failure
      ensures r.Ok? ==> typeErrors == old(typeErrors) + Incompatibility(declared, actual, TypingView(TypingEnv()), loc).value
      ensures r.Fail? ==> typeErrors == old(typeErrors)
    {
      var errors :- Incompatibility(declared, actual, TypingView(TypingEnv()), loc);
      typeErrors := typeErrors + errors;
      return Ok(());
    }

    /** `defineFunctionType`: add a variant to the overload set the name is bound
        to in the typing scope, where that binding lives; an unbound name gets a
        new set holding only this variant, in the top layer. A name bound to
        something other than an overload set fails the cast. */
    method DefineFunctionType(name: string, impl: Function) returns (r: Outcome<()>)
      requires Valid()
      modifies typingScope
      ensures Valid() && typingScope.stack == old(typingScope.stack)
      ensures |old(typingScope.layers)| == |typingScope.layers|
      ensures name !in old(TypingEnv()) ==>
                r == (if |typingScope.stack| == 0 then Fail(NoSuchElement) else Ok(()))
                && (r.Ok? ==> TypingEnv() == old(TypingEnv())[name := OverloadedFunction(name, [impl])])
      ensures name in old(TypingEnv()) ==>
                r == (if AddVariant(name, old(TypingEnv())[name], impl).Ok? then Ok(()) else Fail(CastFailure))
                && (r.Ok? ==> TypingEnv() == old(TypingEnv())[name := AddVariant(name, old(TypingEnv())[name], impl).value])
      ensures r.Fail? ==> typingScope.layers == old(typingScope.layers)
      ensures r.Ok? ==> |typingScope.stack| > 0
                        && ChainKept(old(typingScope.layers), typingScope.layers, typingScope.stack[|typingScope.stack| - 1])
                        && ParentsKept(old(typingScope.layers), typingScope.layers)
    {
      var existing := typingScope.Get(name);
      match existing
      case Fail(_) =>
        r := typingScope.Define(name, OverloadedFunction(name, [impl]));
      case Ok(t) =>
        var extended :- AddVariant(name, t, impl);
        r := typingScope.Assign(name, extended);
    }

    /** The evaluator's part of the state, as one value. */
    function State(): Runtime.Machine
      reads this, scope
    {
      Runtime.Machine(scope.layers, scope.stack, parentScopes, output, input)
    }

    /** `scope.get(id)` on the runtime scope. */
    function Get(id: string): (r: Outcome<Value>)
      reads this, scope, typingScope
      requires Valid()
      ensures Runtime.Valid(State()) && r == Runtime.Get(State(), id)
    {
      scope.Get(id)
    }

    /** `scope.enter()` on the runtime scope. */
    method Enter()
      requires Valid()
      modifies scope
      ensures Valid() && State() == Runtime.Enter(old(State()))
    {
      scope.Enter();
    }

    /** `scope.enter(layer)` on the runtime scope. */
    method EnterWith(parent: nat)
      requires Valid() && parent < |scope.layers|
      modifies scope
      ensures Valid() && State() == Runtime.EnterWith(old(State()), parent)
    {
      scope.EnterWith(parent);
    }

    /** `Layer()` in the runtime arena. */
    method NewLayer() returns (index: nat)
      requires Valid()
      modifies scope
      ensures Valid() && index == |old(scope.layers)| && State() == Runtime.NewLayer(old(State()))
    {
      index := scope.NewLayer();
    }

    /** `function.parentScope = scope.layers.last()`: the function declared by
        `node` captures the current top layer. */
    method CaptureTop(node: nat)
      requires Valid() && |scope.stack| > 0
      modifies this`parentScopes
      ensures Valid()
      ensures State() == old(State()).(parentScopes := old(parentScopes)[node := scope.stack[|scope.stack| - 1]])
    {
      parentScopes := parentScopes[node := scope.stack[|scope.stack| - 1]];
    }

    /** `scope.leave()` on the runtime scope. */
    method Leave() returns (r: Outcome<()>)
      requires Valid()
      modifies scope
      ensures Valid() && Reaches(this, Runtime.Leave(old(State())), r)
    {
      r := scope.Leave();
    }

    /** `scope.define(id, v)` on the runtime scope. */
    method Define(id: string, v: Value) returns (r: Outcome<()>)
      requires Valid()
      modifies scope
      ensures Valid() && Reaches(this, Runtime.Define(old(State()), id, v), r)
    {
      r := scope.Define(id, v);
    }

    /** `scope.assign(id, v)` on the runtime scope. */
    method Assign(id: string, v: Value) returns (r: Outcome<()>)
      requires Valid()
      modifies scope
      ensures Valid() && Reaches(this, Runtime.Assign(old(State()), id, v), r)
    {
      r := scope.Assign(id, v);
    }

    /** `layer.bindings[id] = v` on a runtime layer. */
    method SetIn(layer: nat, id: string, v: Value)
      requires Valid() && layer < |scope.layers|
      modifies scope
      ensures Valid() && State() == Runtime.SetIn(old(State()), layer, id, v)
    {
      scope.SetIn(layer, id, v);
    }

    /** `defineFunction`: the same on the runtime scope, where a function name is
        bound to its overload set as a value. */
    method DefineFunction(name: string, impl: Function) returns (r: Outcome<()>)
      requires Valid()
      modifies scope
      ensures Valid() && Reaches(this, Runtime.DefineFunction(old(State()), name, impl), r)
    {
      var existing := Get(name);
      if existing.Fail? {
        assert Runtime.DefineFunction(State(), name, impl)
            == Runtime.Define(State(), name, TypeValue(OverloadedFunction(name, [impl])));
        r := Define(name, TypeValue(OverloadedFunction(name, [impl])));
      } else {
        var extended := Runtime.RuntimeAddVariant(name, existing.value, impl);
        if extended.Fail? {
          return Fail(extended.failure);
        }
        assert Runtime.DefineFunction(State(), name, impl) == Runtime.Assign(State(), name, extended.value);
        r := Assign(name, extended.value);
      }
    }
  }

  /** A runtime step answered what the rule `o` answers and, on success, left
      the rule's state. */
  ghost predicate Reaches(ctx: Context, o: Outcome<Runtime.Machine>, r: Outcome<()>)
    reads ctx, ctx.scope
  {
    r == (if o.Ok? then Ok(()) else Fail(o.failure)) && (o.Ok? ==> ctx.State() == o.value)
  }

  /** A call node's `iioTypes`, empty until something is written to it. */
  function WrapsOf(iioTypes: map<nat, map<Expr, Type>>, node: nat): map<Expr, Type>
  {
    if node in iioTypes then iioTypes[node] else map[]
  }

  /** The layer a reset pushes sees nothing, whatever the arena already holds:
      no binding made before a reset is visible after it. */
  lemma FreshStackSeesNothing<T>(layers: seq<Layer<T>>)
    requires WellFormed(layers)
    ensures WellFormed(layers + [Layer(map[], None)])
    ensures Visible(layers + [Layer(map[], None)], Some(|layers|)) == map[]
  {
    FreshLayerVisible(layers, None);
  }
}
