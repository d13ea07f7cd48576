/** The evaluator as a pure function of the machine state: what `eval()` of each
    node returns and how it leaves the runtime stack, the captured scopes and the
    console. The imperative evaluator is proved to follow these rules.

    Evaluation reads, but never writes, what type checking stored on the nodes
    (`Nodes`). An exception stops evaluation: the rule answers `Fail` together
    with the machine as the exception found it.

    Recursion through function calls, while loops and imports is bounded by
    `fuel`: a call, a pass of a while loop and an import each use one unit,
    and evaluation with no fuel left stops with `OutOfFuel`. */
module Semantics {
  import opened Wrappers
  import opened KotlinInt
  import opened Syntax
  import opened BuiltIns
  import opened Types
  import opened Overloads
  import opened Scopes
  import opened Values
  import opened Runtime

  /** What type checking left on the nodes, by node number, and the files an
      import can name. */
  datatype Nodes = Nodes(resolvedTypes: map<nat, Type>, resolvedCalls: map<nat, Function>,
                         resolvedArguments: map<nat, seq<Expr>>, iioTypes: map<nat, map<Expr, Type>>,
                         constructedTypes: map<nat, Type>, declaredFunctions: map<nat, Function>,
                         completeFunctions: map<nat, seq<Function>>, sourceFiles: map<string, SourceFile>)

  /** An outcome and the machine it leaves. */
  datatype Run<T> = Run(result: Outcome<T>, m: Machine)

  /** `m'` is a valid machine that kept every layer of `m`. */
  predicate Next(m: Machine, m': Machine)
  {
    Valid(m') && |m.layers| <= |m'.layers|
  }

  /** The exception of a run, carried over to a run of another result type. */
  function Stopped<T, U>(r: Run<T>): (s: Run<U>)
    requires r.result.Fail?
    ensures s.result.Fail? && s.result.failure == r.result.failure && s.m == r.m
  {
    Run(Fail(r.result.failure), r.m)
  }

  /** Pop the layer pushed for a block, a loop or a call, keeping the result. */
  function Popped<T>(r: Run<T>): (s: Run<T>)
    requires Valid(r.m)
    ensures Next(r.m, s.m)
    ensures s.result.Ok? <==> r.result.Ok? && |r.m.stack| > 0
    ensures s.result.Ok? ==> s.result.value == r.result.value && s.m.stack == r.m.stack[..|r.m.stack| - 1]
    ensures s.result.Fail? && r.result.Fail? ==> s.result.failure == r.result.failure
  {
    if r.result.Fail? then r
    else match Leave(r.m)
      case Fail(f) => Run(Fail(f), r.m)
      case Ok(m') => Run(r.result, m')
  }

  function ParamTypes(params: seq<Parameter>): (types: seq<Type>)
    ensures |types| == |params| && forall i :: 0 <= i < |params| ==> types[i] == params[i].paramType
  {
    seq(|params|, i requires 0 <= i < |params| => params[i].paramType)
  }

  /** `Int` operators on two operands already cast to `Int`. */
  function IntOperator(e: Expr, a: Int32, b: Int32): (r: Outcome<Value>)
    requires e.Subtraction? || e.Multiplication? || e.Mod? || e.LesserThan? || e.LesserEqual? || e.Addition?
    ensures e.Mod? ==> r == Remainder(a, b)
    ensures !e.Mod? ==> r.Ok?
  {
    match e
    case Addition(_, _, _) => Ok(IntValue(Plus(a, b)))
    case Subtraction(_, _) => Ok(IntValue(Minus(a, b)))
    case Multiplication(_, _) => Ok(IntValue(Times(a, b)))
    case Mod(_, _) => Remainder(a, b)
    case LesserThan(_, _) => Ok(BooleanValue(a < b))
    case LesserEqual(_, _) => Ok(BooleanValue(a <= b))
  }

  // ------------------------------------------------------------ expressions

  /** `Expression.eval()`. */
  function Eval(n: Nodes, e: Expr, m: Machine, fuel: nat): (r: Run<Value>)
    requires Valid(m)
    ensures Next(m, r.m) && (r.result.Ok? ==> r.m.stack == m.stack)
    decreases fuel, 0, ExprSize(e), 2
  {
    EvalNode(n, e, m, fuel)
  }

  function EvalNode(n: Nodes, e: Expr, m: Machine, fuel: nat): (r: Run<Value>)
    requires Valid(m)
    ensures Next(m, r.m) && (r.result.Ok? ==> r.m.stack == m.stack)
    decreases fuel, 0, ExprSize(e), 1
  {
    match e
    case IntLiteral(i) => Run(Ok(IntValue(i)), m)
    case BooleanLiteral(b) => Run(Ok(BooleanValue(b)), m)
    case StringLiteral(text) => Run(Ok(StringValue(text)), m)
    case SymbolLiteral(symbol) => Run(Ok(TypeValue(SymbolType(symbol))), m)
    case IdExpression(id, _) => Run(Get(m, id), m)
    case BracketExpression(inner) => Eval(n, inner, m, fuel)
    case TypeCast(value, _) => Eval(n, value, m, fuel)
    case Negation(_) => EvalNegation(n, e, m, fuel)
    case UnaryMinus(_) => EvalUnaryMinus(n, e, m, fuel)
    case Addition(_, _, _) => EvalAddition(n, e, m, fuel)
    case Subtraction(_, _) => EvalOperator(n, e, m, fuel)
    case Multiplication(_, _) => EvalOperator(n, e, m, fuel)
    case Mod(_, _) => EvalOperator(n, e, m, fuel)
    case LesserThan(_, _) => EvalOperator(n, e, m, fuel)
    case LesserEqual(_, _) => EvalOperator(n, e, m, fuel)
    case Equal(_, _) => EvalEqual(n, e, m, fuel)
    case IfExpression(_, _, _) => EvalIf(n, e, m, fuel)
    case MatchExpression(_, _, _) => EvalMatch(n, e, m, fuel)
    case ExpressionBlock(_, _) => EvalBlock(n, e, m, fuel)
    case FunctionCall(_, _, _, _) => EvalCall(n, e, m, fuel)
    case DotCall(_, _, _) => EvalDotCall(n, e, m, fuel)
    case ConstructorCall(_, _, _, _) => EvalConstructorCall(n, e, m, fuel)
  }

  /** `Negation.eval()`: the operand cast to `Boolean`, negated. */
  function EvalNegation(n: Nodes, e: Expr, m: Machine, fuel: nat): (r: Run<Value>)
    requires e.Negation? && Valid(m)
    ensures Next(m, r.m) && (r.result.Ok? ==> r.m.stack == m.stack)
    decreases fuel, 0, ExprSize(e), 0
  {
    var operand := Eval(n, e.operand, m, fuel);
    if operand.result.Fail? then Stopped(operand)
    else match AsBool(operand.result.value)
      case Fail(f) => Run(Fail(f), operand.m)
      case Ok(b) => Run(Ok(BooleanValue(!b)), operand.m)
  }

  /** `UnaryMinus.eval()`: the operand cast to `Int`, negated with wrap-around. */
  function EvalUnaryMinus(n: Nodes, e: Expr, m: Machine, fuel: nat): (r: Run<Value>)
    requires e.UnaryMinus? && Valid(m)
    ensures Next(m, r.m) && (r.result.Ok? ==> r.m.stack == m.stack)
    decreases fuel, 0, ExprSize(e), 0
  {
    var operand := Eval(n, e.operand, m, fuel);
    if operand.result.Fail? then Stopped(operand)
    else match AsInt(operand.result.value)
      case Fail(f) => Run(Fail(f), operand.m)
      case Ok(i) => Run(Ok(IntValue(Negate(i))), operand.m)
  }

  /** `left.intEval()` then `right.intEval()`: each side is evaluated and cast
      to `Int` before the next is evaluated. */
  function EvalInts(n: Nodes, left: Expr, right: Expr, m: Machine, fuel: nat): (r: Run<(Int32, Int32)>)
    requires Valid(m)
    ensures Next(m, r.m) && (r.result.Ok? ==> r.m.stack == m.stack)
    decreases fuel, 0, ExprSize(left) + ExprSize(right), 3
  {
    var a := Eval(n, left, m, fuel);
    if a.result.Fail? then Stopped(a)
    else match AsInt(a.result.value)
      case Fail(f) => Run(Fail(f), a.m)
      case Ok(i) =>
        var b := Eval(n, right, a.m, fuel);
        if b.result.Fail? then Stopped(b)
        else match AsInt(b.result.value)
          case Fail(f) => Run(Fail(f), b.m)
          case Ok(j) => Run(Ok((i, j)), b.m)
  }

  /** `Addition.eval()`: string concatenation when checking resolved the node to
      `String`, integer addition otherwise. The left side is cast before the
      right side is evaluated. */
  function EvalAddition(n: Nodes, e: Expr, m: Machine, fuel: nat): (r: Run<Value>)
    requires e.Addition? && Valid(m)
    ensures Next(m, r.m) && (r.result.Ok? ==> r.m.stack == m.stack)
    decreases fuel, 0, ExprSize(e), 0
  {
    if e.node !in n.resolvedTypes then Run(Fail(Uninitialized), m)
    else if n.resolvedTypes[e.node] == StringType then
      var a := Eval(n, e.left, m, fuel);
      if a.result.Fail? then Stopped(a)
      else match AsString(a.result.value)
        case Fail(f) => Run(Fail(f), a.m)
        case Ok(text) =>
          var b := Eval(n, e.right, a.m, fuel);
          if b.result.Fail? then Stopped(b)
          else Run(Concat(text, b.result.value), b.m)
    else
      var operands := EvalInts(n, e.left, e.right, m, fuel);
      if operands.result.Fail? then Stopped(operands)
      else Run(IntOperator(e, operands.result.value.0, operands.result.value.1), operands.m)
  }

  /** `-`, `*`, `%`, `<` and `<=`: both operands as `Int`, then the operator. */
  function EvalOperator(n: Nodes, e: Expr, m: Machine, fuel: nat): (r: Run<Value>)
    requires e.Subtraction? || e.Multiplication? || e.Mod? || e.LesserThan? || e.LesserEqual?
    requires Valid(m)
    ensures Next(m, r.m) && (r.result.Ok? ==> r.m.stack == m.stack)
    decreases fuel, 0, ExprSize(e), 0
  {
    var operands := EvalInts(n, e.left, e.right, m, fuel);
    if operands.result.Fail? then Stopped(operands)
    else Run(IntOperator(e, operands.result.value.0, operands.result.value.1), operands.m)
  }

  /** `Equal.eval()`: structural equality of the two values. */
  function EvalEqual(n: Nodes, e: Expr, m: Machine, fuel: nat): (r: Run<Value>)
    requires e.Equal? && Valid(m)
    ensures Next(m, r.m) && (r.result.Ok? ==> r.m.stack == m.stack)
    decreases fuel, 0, ExprSize(e), 0
  {
    var a := Eval(n, e.left, m, fuel);
    if a.result.Fail? then Stopped(a)
    else
      var b := Eval(n, e.right, a.m, fuel);
      if b.result.Fail? then Stopped(b)
      else Run(Ok(BooleanValue(a.result.value == b.result.value)), b.m)
  }

  /** `IfExpression.eval()`: the condition cast to `Boolean`, then exactly one
      branch. */
  function EvalIf(n: Nodes, e: Expr, m: Machine, fuel: nat): (r: Run<Value>)
    requires e.IfExpression? && Valid(m)
    ensures Next(m, r.m) && (r.result.Ok? ==> r.m.stack == m.stack)
    decreases fuel, 0, ExprSize(e), 0
  {
    var c := Eval(n, e.condition, m, fuel);
    if c.result.Fail? then Stopped(c)
    else match AsBool(c.result.value)
      case Fail(f) => Run(Fail(f), c.m)
      case Ok(b) => Eval(n, if b then e.ifTrue else e.ifFalse, c.m, fuel)
  }

  /** `MatchExpression.eval()`: the scrutinee, then the cases in order. */
  function EvalMatch(n: Nodes, e: Expr, m: Machine, fuel: nat): (r: Run<Value>)
    requires e.MatchExpression? && Valid(m)
    ensures Next(m, r.m) && (r.result.Ok? ==> r.m.stack == m.stack)
    decreases fuel, 0, ExprSize(e), 0
  {
    var v := Eval(n, e.value, m, fuel);
    if v.result.Fail? then Stopped(v)
    else EvalCases(n, v.result.value, e.patternValues, e.elseValue, v.m, fuel)
  }

  /** The first case whose pattern evaluates to a value equal to `v` gives the
      result, and no later pattern is evaluated; with none, the else value. */
  function EvalCases(n: Nodes, v: Value, cases: seq<MatchCase>, elseValue: Expr, m: Machine, fuel: nat): (r: Run<Value>)
    requires Valid(m)
    ensures Next(m, r.m) && (r.result.Ok? ==> r.m.stack == m.stack)
    decreases fuel, 0, CasesSize(cases) + ExprSize(elseValue), 3
  {
    if cases == [] then Eval(n, elseValue, m, fuel)
    else
      assert CasesSize(cases) == ExprSize(cases[0].pattern) + ExprSize(cases[0].result) + CasesSize(cases[1..]);
      var p := Eval(n, cases[0].pattern, m, fuel);
      if p.result.Fail? then Stopped(p)
      else if v == p.result.value then Eval(n, cases[0].result, p.m, fuel)
      else EvalCases(n, v, cases[1..], elseValue, p.m, fuel)
  }

  /** `ExpressionBlock.eval()`: a layer is pushed, the statements run, the tail
      is evaluated, and the layer is popped. */
  function EvalBlock(n: Nodes, e: Expr, m: Machine, fuel: nat): (r: Run<Value>)
    requires e.ExpressionBlock? && Valid(m)
    ensures Next(m, r.m) && (r.result.Ok? ==> r.m.stack == m.stack)
    decreases fuel, 0, ExprSize(e), 0
  {
    var inner := Enter(m);
    var body := ExecAll(n, e.statements, inner, fuel);
    if body.result.Fail? then Stopped(body)
    else Popped(Eval(n, e.returnExpression, body.m, fuel))
  }

  /** `DotCall.eval()`: the target must be a record, and the field must be set. */
  function EvalDotCall(n: Nodes, e: Expr, m: Machine, fuel: nat): (r: Run<Value>)
    requires e.DotCall? && Valid(m)
    ensures Next(m, r.m) && (r.result.Ok? ==> r.m.stack == m.stack)
    decreases fuel, 0, ExprSize(e), 0
  {
    var target := Eval(n, e.target, m, fuel);
    if target.result.Fail? then Stopped(target)
    else if !target.result.value.DataObject? then Run(Fail(CastFailure), target.m)
    else if e.id !in target.result.value.values then Run(Fail(NullValue), target.m)
    else Run(Ok(target.result.value.values[e.id]), target.m)
  }

  /** `ConstructorCall.eval()`: the type checking resolved, then the field
      values in source order. */
  function EvalConstructorCall(n: Nodes, e: Expr, m: Machine, fuel: nat): (r: Run<Value>)
    requires e.ConstructorCall? && Valid(m)
    ensures Next(m, r.m) && (r.result.Ok? ==> r.m.stack == m.stack)
    decreases fuel, 0, ExprSize(e), 0
  {
    if e.node !in n.constructedTypes then Run(Fail(Uninitialized), m)
    else
      var fields := EvalFields(n, e.assignments, map[], m, fuel);
      if fields.result.Fail? then Stopped(fields)
      else Run(Ok(DataObject(n.constructedTypes[e.node], fields.result.value)), fields.m)
  }

  /** The field values, added one by one to `done`. */
  function EvalFields(n: Nodes, assignments: seq<FieldAssignment>, done: map<string, Value>, m: Machine, fuel: nat)
    : (r: Run<map<string, Value>>)
    requires Valid(m)
    ensures Next(m, r.m) && (r.result.Ok? ==> r.m.stack == m.stack)
    ensures r.result.Ok? ==> r.result.value.Keys == done.Keys + set a | a in assignments :: a.field
    decreases fuel, 0, AssignmentsSize(assignments), 3
  {
    if assignments == [] then Run(Ok(done), m)
    else
      assert AssignmentsSize(assignments) == ExprSize(assignments[0].value) + AssignmentsSize(assignments[1..]);
      var v := Eval(n, assignments[0].value, m, fuel);
      if v.result.Fail? then Stopped(v)
      else
        var r := EvalFields(n, assignments[1..], done[assignments[0].field := v.result.value], v.m, fuel);
        assert forall a :: a in assignments <==> a == assignments[0] || a in assignments[1..];
        r
  }

  /** `FunctionCall.eval()`: the arguments checking resolved, left to right,
      each flagged one wrapped for its interface, then the resolved function. */
  function EvalCall(n: Nodes, e: Expr, m: Machine, fuel: nat): (r: Run<Value>)
    requires e.FunctionCall? && Valid(m)
    ensures Next(m, r.m) && (r.result.Ok? ==> r.m.stack == m.stack)
    decreases fuel, 0, ExprSize(e), 0
  {
    if e.node !in n.resolvedArguments then Run(Fail(Uninitialized), m)
    else if fuel == 0 then Run(Fail(OutOfFuel), m)
    else
      var wraps := if e.node in n.iioTypes then n.iioTypes[e.node] else map[];
      var args := EvalArgs(n, wraps, n.resolvedArguments[e.node], [], m, fuel - 1);
      if args.result.Fail? then Stopped(args)
      else if e.node !in n.resolvedCalls then Run(Fail(Uninitialized), args.m)
      else Invoke(n, n.resolvedCalls[e.node], args.result.value, args.m, fuel - 1)
  }

  /** The argument values, appended one by one to `done`. */
  function EvalArgs(n: Nodes, wraps: map<Expr, Type>, es: seq<Expr>, done: seq<Value>, m: Machine, fuel: nat)
    : (r: Run<seq<Value>>)
    requires Valid(m)
    ensures Next(m, r.m) && (r.result.Ok? ==> r.m.stack == m.stack)
    ensures r.result.Ok? ==> |r.result.value| == |done| + |es| && r.result.value[..|done|] == done
    decreases fuel, 0, ExprsSize(es), 3
  {
    if es == [] then Run(Ok(done), m)
    else
      var v := Eval(n, es[0], m, fuel);
      if v.result.Fail? then Stopped(v)
      else
        var arg := if es[0] in wraps then ToIIO(v.m, wraps[es[0]], v.result.value) else Ok(v.result.value);
        if arg.Fail? then Run(Fail(arg.failure), v.m)
        else
          var r := EvalArgs(n, wraps, es[1..], done + [arg.value], v.m, fuel);
          assert r.result.Ok? ==> r.result.value[..|done|] == (done + [arg.value])[..|done|];
          r
  }

  /** `Function.invoke(arguments)`. A declared function runs in a new layer
      whose parent is the layer it captured when its declaration was evaluated,
      with the parameters bound positionally. An interface stub looks up the
      variant bound for the wrapped object's concrete type and calls it with the
      wrapped object in place of the wrapper. `printLine` writes its argument;
      `readLine` takes the next input line. */
  function Invoke(n: Nodes, f: Function, args: seq<Value>, m: Machine, fuel: nat): (r: Run<Value>)
    requires Valid(m)
    ensures Next(m, r.m) && (r.result.Ok? ==> r.m.stack == m.stack)
    decreases fuel, 1
  {
    match f
    case CustomFunction(_, params, _, statements, returnExpression, declaration) =>
      if declaration !in m.parentScopes then Run(Fail(Uninitialized), m)
      else
        var inner := EnterWith(m, m.parentScopes[declaration]);
        (match BindParams(inner, params, args)
         case Fail(failure) => Run(Fail(failure), inner)
         case Ok(bound) =>
           var body := ExecAll(n, statements, bound, fuel);
           if body.result.Fail? then Stopped(body)
           else Popped(Eval(n, returnExpression, body.m, fuel)))
    case InterfaceFunction(name, params, _) =>
      if |args| == 0 then Run(Fail(IndexOutOfBounds), m)
      else if !args[0].IIO? then Run(Fail(CastFailure), m)
      else
        var argTypes := if |params| == 0 then [] else ParamTypes(params[1..]);
        (match IIOGetVariant(args[0].functions, args[0].concreteType, name, argTypes, RuntimeView(Env(m)))
         case Fail(failure) => Run(Fail(failure), m)
         case Ok(variant) =>
           if fuel == 0 then Run(Fail(OutOfFuel), m)
           else Invoke(n, variant, [args[0].value] + args[1..], m, fuel - 1))
    case BuiltInFunction(_, _, _, native) =>
      match native
      case PrintLine =>
        if |args| == 0 then Run(Fail(IndexOutOfBounds), m)
        else Run(Ok(UnitValue), m.(output := m.output + [args[0]]))
      case ReadLine =>
        if |m.input| == 0 then Run(Fail(EndOfInput), m)
        else Run(Ok(StringValue(m.input[0])), m.(input := m.input[1..]))
  }

  /** `arguments.forEachIndexed { i, at -> define(at.name, arguments[i]) }`: a
      missing argument is an index past the end; extra arguments are ignored. */
  function BindParams(m: Machine, params: seq<Parameter>, args: seq<Value>): (r: Outcome<Machine>)
    requires Valid(m)
    ensures r.Ok? ==> Valid(r.value) && r.value.stack == m.stack && |r.value.layers| == |m.layers|
    ensures r.Ok? ==> r.value.parentScopes == m.parentScopes && r.value.output == m.output && r.value.input == m.input
    ensures r.Fail? <==> |args| < |params| || (|params| > 0 && |m.stack| == 0)
    decreases params
  {
    if params == [] then Ok(m)
    else if |args| == 0 then Fail(IndexOutOfBounds)
    else
      var defined :- Define(m, params[0].name, args[0]);
      BindParams(defined, params[1..], args[1..])
  }

  /** `toIIO`: the argument must be a record; every stub of the interface,
      completed for the record's type, is resolved against the runtime scope to
      the one variant that is not a stub, and the variants are grouped by name. */
  function ToIIO(m: Machine, argumentType: Type, v: Value): (r: Outcome<Value>)
    requires Valid(m)
    ensures r.Ok? ==> v.DataObject? && r.value.IIO? && r.value.value == v && r.value.concreteType == v.dataType
  {
    if !v.DataObject? || !argumentType.InterfaceType? then Fail(CastFailure)
    else
      var stubs := AllVariants(CompleteFunctions(argumentType.overloads, v.dataType));
      var bound :- StaticVariants(m, stubs);
      Ok(IIO(v, v.dataType, GroupByName(bound)))
  }

  /** The variants of every overload set, in order (`flatMap`). */
  function AllVariants(os: seq<Syntax.Overloads>): seq<Function>
  {
    if os == [] then [] else os[0].functions + AllVariants(os[1..])
  }

  /** Each stub resolved by `getStaticVariant` on the overload set its name is
      bound to at runtime. */
  function StaticVariants(m: Machine, stubs: seq<Function>): (r: Outcome<seq<Function>>)
    requires Valid(m)
    ensures r.Ok? ==> |r.value| == |stubs|
    ensures r.Ok? ==> forall i :: 0 <= i < |stubs| ==> !r.value[i].InterfaceFunction?
  {
    if stubs == [] then Ok([])
    else
      var bound :- Get(m, stubs[0].name);
      if !(bound.TypeValue? && bound.t.OverloadedFunction?) then Fail(CastFailure)
      else
        var variant :- GetStaticVariant(bound.t.name, bound.t.functions, ParamTypes(stubs[0].arguments), RuntimeView(Env(m)));
        StaticVariantNotStub(bound.t.name, bound.t.functions, ParamTypes(stubs[0].arguments), RuntimeView(Env(m)), variant);
        var rest :- StaticVariants(m, stubs[1..]);
        Ok([variant] + rest)
  }

  /** A static pick is never an interface stub. */
  lemma StaticVariantNotStub(name: string, functions: seq<Function>, argTypes: seq<Type>, scope: FunctionScope, f: Function)
    requires GetStaticVariant(name, functions, argTypes, scope) == Ok(f)
    ensures !f.InterfaceFunction?
  {
    GetStaticVariantUnique(name, functions, argTypes, scope, f);
  }

  /** The functions of `fs` named `name`, in order. */
  function Named(fs: seq<Function>, name: string): (r: seq<Function>)
    ensures forall g :: g in r <==> g in fs && g.name == name
  {
    if fs == [] then []
    else (if fs[0].name == name then [fs[0]] else []) + Named(fs[1..], name)
  }

  /** `groupBy { it.name }` turned into overload sets. */
  function GroupByName(fs: seq<Function>): (r: set<Syntax.Overloads>)
    ensures forall o :: o in r <==> (exists g :: g in fs && g.name == o.name) && o.functions == Named(fs, o.name)
  {
    var names := set g | g in fs :: g.name;
    var r := set name | name in names :: Syntax.Overloads(name, Named(fs, name));
    assert forall o :: o in r ==> o.name in names;
    r
  }

  // ------------------------------------------------------------- statements

  /** `Statement.eval()`. */
  function Exec(n: Nodes, s: Stmt, m: Machine, fuel: nat): (r: Run<()>)
    requires Valid(m)
    ensures Next(m, r.m) && (r.result.Ok? ==> r.m.stack == m.stack)
    decreases fuel, 0, StmtSize(s), 1
  {
    match s
    case ExpressionStatement(e) =>
      var v := Eval(n, e, m, fuel);
      if v.result.Fail? then Stopped(v) else Run(Ok(()), v.m)
    case VariableDeclaration(name, _, initializer, _) =>
      if initializer.None? then Run(Ok(()), m)
      else
        assert StmtSize(s) == 1 + ExprSize(initializer.value);
        var v := Eval(n, initializer.value, m, fuel);
        if v.result.Fail? then Stopped(v)
        else (match Define(v.m, name, v.result.value)
          case Fail(f) => Run(Fail(f), v.m)
          case Ok(m') => Run(Ok(()), m'))
    case VariableAssignment(name, value, _) =>
      var v := Eval(n, value, m, fuel);
      if v.result.Fail? then Stopped(v)
      else (match Assign(v.m, name, v.result.value)
        case Fail(f) => Run(Fail(f), v.m)
        case Ok(m') => Run(Ok(()), m'))
    case ForLoop(_, first, _, body) =>
      var passes := ForFrom(n, s, first as int, Enter(m), fuel);
      Popped(passes)
    case WhileLoop(_, body) =>
      var passes := WhileFrom(n, s, Enter(m), fuel);
      Popped(passes)
  }

  /** `statements.forEach(Statement::eval)`. */
  function ExecAll(n: Nodes, ss: seq<Stmt>, m: Machine, fuel: nat): (r: Run<()>)
    requires Valid(m)
    ensures Next(m, r.m) && (r.result.Ok? ==> r.m.stack == m.stack)
    decreases fuel, 0, StmtsSize(ss), 2
  {
    if ss == [] then Run(Ok(()), m)
    else
      var first := Exec(n, ss[0], m, fuel);
      if first.result.Fail? then first
      else ExecAll(n, ss[1..], first.m, fuel)
  }

  /** The passes of a for loop from iterator value `i` on: each binds the
      iterator in the loop's layer and runs the body. */
  function ForFrom(n: Nodes, s: Stmt, i: int, m: Machine, fuel: nat): (r: Run<()>)
    requires s.ForLoop? && s.first as int <= i && Valid(m)
    ensures Next(m, r.m) && (r.result.Ok? ==> r.m.stack == m.stack)
    decreases fuel, 0, StmtsSize(s.statements), 3, s.last as int - i + 1
  {
    if i > s.last as int then Run(Ok(()), m)
    else
      var pass := ForPass(n, s, i, m, fuel);
      if pass.result.Fail? then pass
      else ForFrom(n, s, i + 1, pass.m, fuel)
  }

  /** One pass of a for loop: the iterator is bound in the loop's layer, then
      the body runs. */
  function ForPass(n: Nodes, s: Stmt, i: int, m: Machine, fuel: nat): (r: Run<()>)
    requires s.ForLoop? && s.first as int <= i <= s.last as int && Valid(m)
    ensures Next(m, r.m) && (r.result.Ok? ==> r.m.stack == m.stack)
    decreases fuel, 0, StmtsSize(s.statements), 3, 0
  {
    match Define(m, s.iteratorName, IntValue(i as Int32))
    case Fail(f) => Run(Fail(f), m)
    case Ok(bound) => ExecAll(n, s.statements, bound, fuel)
  }

  /** The passes of a while loop: the condition is evaluated before each pass,
      and the loop stops when it is anything but `true`. */
  function WhileFrom(n: Nodes, s: Stmt, m: Machine, fuel: nat): (r: Run<()>)
    requires s.WhileLoop? && Valid(m)
    ensures Next(m, r.m) && (r.result.Ok? ==> r.m.stack == m.stack)
    decreases fuel, 0, ExprSize(s.condition) + StmtsSize(s.statements), 3
  {
    var c := Eval(n, s.condition, m, fuel);
    if c.result.Fail? then Stopped(c)
    else if c.result.value != BooleanValue(true) then Run(Ok(()), c.m)
    else if fuel == 0 then Run(Fail(OutOfFuel), c.m)
    else
      var pass := ExecAll(n, s.statements, c.m, fuel);
      if pass.result.Fail? then pass
      else WhileFrom(n, s, pass.m, fuel - 1)
  }

  // ---------------------------------------------------- declarations, files

  /** `builtIns.forEach { defineFunction(it.name, it) }`. */
  function DefineAll(m: Machine, fs: seq<Function>): (r: Outcome<Machine>)
    requires Valid(m)
    ensures r.Ok? ==> Valid(r.value) && Rebound(m, r.value)
    decreases fs
  {
    if fs == [] then Ok(m)
    else
      var defined :- DefineFunction(m, fs[0].name, fs[0]);
      DefineAll(defined, fs[1..])
  }

  /** `InterfaceDeclaration.eval()`: each stub of the interface is defined at
      runtime; reading the top layer for its captured scope fails on an empty
      stack. */
  function DefineStubs(m: Machine, stubs: seq<Function>): (r: Outcome<Machine>)
    requires Valid(m)
    ensures r.Ok? ==> Valid(r.value) && Rebound(m, r.value)
    decreases stubs
  {
    if stubs == [] then Ok(m)
    else if |m.stack| == 0 then Fail(NoSuchElement)
    else
      var defined :- DefineFunction(m, stubs[0].name, stubs[0]);
      DefineStubs(defined, stubs[1..])
  }

  /** `types.forEach(AstNode::eval)`: only interfaces do anything at runtime. */
  function EvalTypes(n: Nodes, types: seq<TypeDeclaration>, m: Machine): (r: Outcome<Machine>)
    requires Valid(m)
    ensures r.Ok? ==> Valid(r.value) && Rebound(m, r.value)
  {
    if types == [] then Ok(m)
    else
      var declared :- match types[0]
        case InterfaceDeclaration(node, _, _) =>
          DefineStubs(m, if node in n.completeFunctions then n.completeFunctions[node] else [])
        case _ => Ok(m);
      EvalTypes(n, types[1..], declared)
  }

  /** `FunctionDeclaration.eval()`: the declared function captures the current
      top layer, then is defined at runtime. */
  function EvalFunctionDeclaration(n: Nodes, d: FunctionDeclaration, m: Machine): (r: Outcome<Machine>)
    requires Valid(m)
    ensures r.Ok? ==> Valid(r.value) && |r.value.layers| == |m.layers| && r.value.stack == m.stack
                      && r.value.output == m.output && r.value.input == m.input
    ensures r.Ok? ==> |m.stack| > 0 && d.node in r.value.parentScopes && r.value.parentScopes[d.node] == m.stack[|m.stack| - 1]
  {
    if d.node !in n.declaredFunctions then Fail(Uninitialized)
    else if |m.stack| == 0 then Fail(NoSuchElement)
    else
      var f := n.declaredFunctions[d.node];
      DefineFunction(m.(parentScopes := m.parentScopes[d.node := m.stack[|m.stack| - 1]]), f.name, f)
  }

  /** `functions.forEach(AstNode::eval)`. */
  function EvalFunctions(n: Nodes, ds: seq<FunctionDeclaration>, m: Machine): (r: Outcome<Machine>)
    requires Valid(m)
    ensures r.Ok? ==> Valid(r.value) && |r.value.layers| == |m.layers| && r.value.stack == m.stack
  {
    if ds == [] then Ok(m)
    else
      var declared :- EvalFunctionDeclaration(n, ds[0], m);
      EvalFunctions(n, ds[1..], declared)
  }

  /** The listed names that `env` binds, with their values there. */
  function Exports(ids: seq<string>, env: map<string, Value>): (r: map<string, Value>)
    ensures r.Keys == (set id | id in ids) * env.Keys
    ensures forall id :: id in r ==> r[id] == env[id]
  {
    map id | id in ids && id in env :: env[id]
  }

  /** Adding the first name, then the rest, is adding them all. */
  lemma ExportsStep(b: map<string, Value>, ids: seq<string>, env: map<string, Value>)
    requires ids != [] && ids[0] in env
    ensures b[ids[0] := env[ids[0]]] + Exports(ids[1..], env) == b + Exports(ids, env)
  {
    var left := b[ids[0] := env[ids[0]]] + Exports(ids[1..], env);
    var right := b + Exports(ids, env);
    assert forall id :: id in ids <==> id == ids[0] || id in ids[1..];
    assert left.Keys == right.Keys;
    forall id | id in left
      ensures left[id] == right[id]
    {
    }
  }

  /** `currentScope.bindings[id] = scope.get(id)` for each imported name. When
      `current` is off the chain `get` walks, as the importer's layer is for the
      imported file: it fails exactly when some listed name is unbound, with
      the first such name, and otherwise `current` gains exactly the listed
      names with the values `get` sees, and no other layer changes. */
  function ExportValues(m: Machine, current: nat, ids: seq<string>): (r: Outcome<Machine>)
    requires Valid(m) && current < |m.layers|
    ensures r.Ok? ==> Valid(r.value) && Rebound(m, r.value)
    ensures r.Fail? ==> r.failure.UnknownName? && r.failure.id in ids
    ensures OffView(m, current) ==> (r.Ok? <==> forall id :: id in ids ==> id in Env(m))
    ensures OffView(m, current) && r.Fail? ==> r.failure.id !in Env(m)
    ensures OffView(m, current) && r.Ok? ==>
      r.value.layers == m.layers[current := Layer(m.layers[current].bindings + Exports(ids, Env(m)),
                                                  m.layers[current].parent)]
    decreases ids
  {
    if ids == [] then
      assert Exports(ids, Env(m)) == map[];
      assert m.layers[current].bindings + map[] == m.layers[current].bindings;
      assert m.layers[current := Layer(m.layers[current].bindings + Exports(ids, Env(m)), m.layers[current].parent)]
             == m.layers;
      Ok(m)
    else
      var v :- Get(m, ids[0]);
      var next := SetIn(m, current, ids[0], v);
      if OffView(m, current) then
        SetInOffView(m, current, ids[0], v);
        ExportsStep(m.layers[current].bindings, ids, Env(m));
        ExportValues(next, current, ids[1..])
      else
        ExportValues(next, current, ids[1..])
  }

  /** `SourceFile.eval()`: built-ins, imports, types, functions, statements. */
  function EvalFile(n: Nodes, file: SourceFile, m: Machine, fuel: nat): (r: Run<()>)
    requires Valid(m)
    ensures Next(m, r.m) && (r.result.Ok? ==> r.m.stack == m.stack)
    decreases fuel, 1, 0, 0
  {
    match DefineAll(m, Functions)
    case Fail(f) => Run(Fail(f), m)
    case Ok(withBuiltIns) =>
      var imported := EvalImports(n, file.imports, withBuiltIns, fuel);
      if imported.result.Fail? then imported
      else match EvalTypes(n, file.types, imported.m)
        case Fail(f) => Run(Fail(f), imported.m)
        case Ok(typed) =>
          match EvalFunctions(n, file.functions, typed)
          case Fail(f) => Run(Fail(f), typed)
          case Ok(declared) => ExecAll(n, file.statements, declared, fuel)
  }

  /** `imports.forEach(AstNode::eval)`. */
  function EvalImports(n: Nodes, imports: seq<ImportDeclaration>, m: Machine, fuel: nat): (r: Run<()>)
    requires Valid(m)
    ensures Next(m, r.m) && (r.result.Ok? ==> r.m.stack == m.stack)
    decreases fuel, 0, |imports|, 0
  {
    if imports == [] then Run(Ok(()), m)
    else
      var first := EvalImport(n, imports[0], m, fuel);
      if first.result.Fail? then first
      else EvalImports(n, imports[1..], first.m, fuel)
  }

  /** `ImportDeclaration.eval()`: the imported file is evaluated on a fresh
      parentless layer, and each imported name is copied from what it sees into
      the importer's top layer. */
  function EvalImport(n: Nodes, imp: ImportDeclaration, m: Machine, fuel: nat): (r: Run<()>)
    requires Valid(m)
    ensures Next(m, r.m) && (r.result.Ok? ==> r.m.stack == m.stack)
    decreases fuel, 0, 0, 1
  {
    if |m.stack| == 0 then Run(Fail(NoSuchElement), m)
    else ImportPath(n, imp, m.stack[|m.stack| - 1], EnterWith(NewLayer(m), |m.layers|), fuel)
  }

  /** `sourceFiles[filePath]!!` on the layer pushed for the import: a path with
      no parsed file is a null dereference. */
  function ImportPath(n: Nodes, imp: ImportDeclaration, current: nat, m: Machine, fuel: nat): (r: Run<()>)
    requires Valid(m) && current < |m.layers| && |m.stack| > 0
    ensures Next(m, r.m) && (r.result.Ok? ==> r.m.stack == m.stack[..|m.stack| - 1])
    decreases fuel, 0, 0, 0
  {
    if imp.filePath !in n.sourceFiles then Run(Fail(NullValue), m)
    else if fuel == 0 then Run(Fail(OutOfFuel), m)
    else ImportFile(n, n.sourceFiles[imp.filePath], current, imp.ids, m, fuel - 1)
  }

  /** The rest of `ImportDeclaration.eval()` once the file's layer is pushed:
      evaluate the file, copy the listed names into `current`, pop the layer. */
  function ImportFile(n: Nodes, file: SourceFile, current: nat, ids: seq<string>, m: Machine, fuel: nat): (r: Run<()>)
    requires Valid(m) && current < |m.layers| && |m.stack| > 0
    ensures Next(m, r.m) && (r.result.Ok? ==> r.m.stack == m.stack[..|m.stack| - 1])
    decreases fuel, 2, 0, 0
  {
    var ran := EvalFile(n, file, m, fuel);
    if ran.result.Fail? then ran
    else match ExportValues(ran.m, current, ids)
      case Fail(f) => Run(Fail(f), ran.m)
      case Ok(exported) => Popped(Run(Ok(()), exported))
  }
}
