/** The evaluator: `eval()` of every expression, statement, declaration and
    source file, run against the shared `Context`. Each method is proved to give
    the outcome the evaluation rules give for the state it starts from and, when
    it succeeds, to leave exactly the state the rules give. After an exception
    the state is not specified: evaluation stops there. */
module Evaluator {
  import opened Wrappers
  import opened KotlinInt
  import opened Syntax
  import opened BuiltIns
  import opened Types
  import opened Overloads
  import opened Scopes
  import opened Values
  import opened Context
  import Runtime
  import S = Semantics

  /** The method answered what the rule answers and, on success, left the
      rule's state. */
  ghost predicate Gives<T>(ctx: Context, run: S.Run<T>, r: Outcome<T>)
    reads ctx, ctx.scope
  {
    r == run.result && (r.Ok? ==> ctx.State() == run.m)
  }

  /** A runtime `get` sees what the machine's environment holds. */
  lemma EnvOf(ctx: Context)
    requires ctx.Valid()
    ensures Runtime.Valid(ctx.State()) && ctx.scope.Env() == Runtime.Env(ctx.State())
  {
  }

  /** The only successful outcome of a statement. */
  lemma UnitOk(r: Outcome<()>)
    requires r.Ok?
    ensures r == Ok(())
  {
    match r.value
    case () =>
  }

  // ------------------------------------------------------------ expressions

  /** `Expression.eval()`: the leaves here, the operators and the compound
      expressions by the methods below. */
  method EvalExpr(ctx: Context, n: S.Nodes, e: Expr, fuel: nat) returns (r: Outcome<Value>)
    requires ctx.Valid()
    modifies ctx.scope, ctx`output, ctx`input
    ensures ctx.Valid() && Gives(ctx, S.Eval(n, e, old(ctx.State()), fuel), r)
    decreases fuel, 0, ExprSize(e), 2
  {
    match e
    case IntLiteral(_) => r := EvalLiteral(ctx, n, e, fuel);
    case BooleanLiteral(_) => r := EvalLiteral(ctx, n, e, fuel);
    case StringLiteral(_) => r := EvalLiteral(ctx, n, e, fuel);
    case SymbolLiteral(_) => r := EvalLiteral(ctx, n, e, fuel);
    case IdExpression(_, _) => r := EvalLiteral(ctx, n, e, fuel);
    case BracketExpression(_) => r := EvalDelegate(ctx, n, e, fuel);
    case TypeCast(_, _) => r := EvalDelegate(ctx, n, e, fuel);
    case IfExpression(_, _, _) => r := EvalCompound(ctx, n, e, fuel);
    case MatchExpression(_, _, _) => r := EvalCompound(ctx, n, e, fuel);
    case ExpressionBlock(_, _) => r := EvalCompound(ctx, n, e, fuel);
    case FunctionCall(_, _, _, _) => r := EvalCompound(ctx, n, e, fuel);
    case DotCall(_, _, _) => r := EvalCompound(ctx, n, e, fuel);
    case ConstructorCall(_, _, _, _) => r := EvalCompound(ctx, n, e, fuel);
    case _ => r := EvalOperation(ctx, n, e, fuel);
  }

  /** Literals and identifiers: no sub-expression to evaluate. */
  method EvalLiteral(ctx: Context, n: S.Nodes, e: Expr, fuel: nat) returns (r: Outcome<Value>)
    requires e.IntLiteral? || e.BooleanLiteral? || e.StringLiteral? || e.SymbolLiteral? || e.IdExpression?
    requires ctx.Valid()
    modifies ctx.scope, ctx`output, ctx`input
    ensures ctx.Valid() && Gives(ctx, S.Eval(n, e, old(ctx.State()), fuel), r)
  {
    match e
    case IntLiteral(i) => r := Ok(IntValue(i));
    case BooleanLiteral(b) => r := Ok(BooleanValue(b));
    case StringLiteral(text) => r := Ok(StringValue(text));
    case SymbolLiteral(symbol) => r := Ok(TypeValue(SymbolType(symbol)));
    case IdExpression(id, _) => r := ctx.Get(id);
  }

  /** `BracketExpression` and `TypeCast`: the inner expression's value, unchanged. */
  method EvalDelegate(ctx: Context, n: S.Nodes, e: Expr, fuel: nat) returns (r: Outcome<Value>)
    requires e.BracketExpression? || e.TypeCast?
    requires ctx.Valid()
    modifies ctx.scope, ctx`output, ctx`input
    ensures ctx.Valid() && Gives(ctx, S.Eval(n, e, old(ctx.State()), fuel), r)
    decreases fuel, 0, ExprSize(e), 1
  {
    match e
    case BracketExpression(inner) => r := EvalExpr(ctx, n, inner, fuel);
    case TypeCast(value, _) => r := EvalExpr(ctx, n, value, fuel);
  }

  /** The unary and binary operators. */
  method EvalOperation(ctx: Context, n: S.Nodes, e: Expr, fuel: nat) returns (r: Outcome<Value>)
    requires e.Negation? || e.UnaryMinus? || e.Addition? || e.Subtraction? || e.Multiplication?
             || e.Mod? || e.LesserThan? || e.LesserEqual? || e.Equal?
    requires ctx.Valid()
    modifies ctx.scope, ctx`output, ctx`input
    ensures ctx.Valid() && Gives(ctx, S.Eval(n, e, old(ctx.State()), fuel), r)
    decreases fuel, 0, ExprSize(e), 1
  {
    match e
    case Negation(_) => r := EvalNegation(ctx, n, e, fuel);
    case UnaryMinus(_) => r := EvalUnaryMinus(ctx, n, e, fuel);
    case Addition(_, _, _) => r := EvalAddition(ctx, n, e, fuel);
    case Subtraction(_, _) => r := EvalOperator(ctx, n, e, fuel);
    case Multiplication(_, _) => r := EvalOperator(ctx, n, e, fuel);
    case Mod(_, _) => r := EvalOperator(ctx, n, e, fuel);
    case LesserThan(_, _) => r := EvalOperator(ctx, n, e, fuel);
    case LesserEqual(_, _) => r := EvalOperator(ctx, n, e, fuel);
    case Equal(_, _) => r := EvalEqual(ctx, n, e, fuel);
  }

  /** Conditionals, blocks, calls and records. */
  method EvalCompound(ctx: Context, n: S.Nodes, e: Expr, fuel: nat) returns (r: Outcome<Value>)
    requires e.IfExpression? || e.MatchExpression? || e.ExpressionBlock? || e.FunctionCall?
             || e.DotCall? || e.ConstructorCall?
    requires ctx.Valid()
    modifies ctx.scope, ctx`output, ctx`input
    ensures ctx.Valid() && Gives(ctx, S.Eval(n, e, old(ctx.State()), fuel), r)
    decreases fuel, 0, ExprSize(e), 1
  {
    match e
    case IfExpression(_, _, _) => r := EvalIf(ctx, n, e, fuel);
    case MatchExpression(_, _, _) => r := EvalMatch(ctx, n, e, fuel);
    case ExpressionBlock(_, _) => r := EvalBlock(ctx, n, e, fuel);
    case FunctionCall(_, _, _, _) => r := EvalCall(ctx, n, e, fuel);
    case DotCall(_, _, _) => r := EvalDotCall(ctx, n, e, fuel);
    case ConstructorCall(_, _, _, _) => r := EvalConstructorCall(ctx, n, e, fuel);
  }

  /** `Negation.eval()`. */
  method EvalNegation(ctx: Context, n: S.Nodes, e: Expr, fuel: nat) returns (r: Outcome<Value>)
    requires e.Negation? && ctx.Valid()
    modifies ctx.scope, ctx`output, ctx`input
    ensures ctx.Valid() && Gives(ctx, S.Eval(n, e, old(ctx.State()), fuel), r)
    decreases fuel, 0, ExprSize(e), 0
  {
    assert S.Eval(n, e, ctx.State(), fuel) == S.EvalNegation(n, e, ctx.State(), fuel);
    var operand := EvalExpr(ctx, n, e.operand, fuel);
    if operand.Fail? {
      return Fail(operand.failure);
    }
    var b :- AsBool(operand.value);
    r := Ok(BooleanValue(!b));
  }

  /** `UnaryMinus.eval()`. */
  method EvalUnaryMinus(ctx: Context, n: S.Nodes, e: Expr, fuel: nat) returns (r: Outcome<Value>)
    requires e.UnaryMinus? && ctx.Valid()
    modifies ctx.scope, ctx`output, ctx`input
    ensures ctx.Valid() && Gives(ctx, S.Eval(n, e, old(ctx.State()), fuel), r)
    decreases fuel, 0, ExprSize(e), 0
  {
    assert S.Eval(n, e, ctx.State(), fuel) == S.EvalUnaryMinus(n, e, ctx.State(), fuel);
    var operand := EvalExpr(ctx, n, e.operand, fuel);
    if operand.Fail? {
      return Fail(operand.failure);
    }
    var i :- AsInt(operand.value);
    r := Ok(IntValue(Negate(i)));
  }

  /** `left.intEval()`, then `right.intEval()`. */
  method EvalInts(ctx: Context, n: S.Nodes, left: Expr, right: Expr, fuel: nat) returns (r: Outcome<(Int32, Int32)>)
    requires ctx.Valid()
    modifies ctx.scope, ctx`output, ctx`input
    ensures ctx.Valid() && Gives(ctx, S.EvalInts(n, left, right, old(ctx.State()), fuel), r)
    decreases fuel, 0, ExprSize(left) + ExprSize(right), 3
  {
    var a := EvalExpr(ctx, n, left, fuel);
    if a.Fail? {
      return Fail(a.failure);
    }
    var i :- AsInt(a.value);
    var b := EvalExpr(ctx, n, right, fuel);
    if b.Fail? {
      return Fail(b.failure);
    }
    var j :- AsInt(b.value);
    r := Ok((i, j));
  }

  /** `Addition.eval()`. */
  method EvalAddition(ctx: Context, n: S.Nodes, e: Expr, fuel: nat) returns (r: Outcome<Value>)
    requires e.Addition? && ctx.Valid()
    modifies ctx.scope, ctx`output, ctx`input
    ensures ctx.Valid() && Gives(ctx, S.Eval(n, e, old(ctx.State()), fuel), r)
    decreases fuel, 0, ExprSize(e), 0
  {
    assert S.Eval(n, e, ctx.State(), fuel) == S.EvalAddition(n, e, ctx.State(), fuel);
    if e.node !in n.resolvedTypes {
      return Fail(Uninitialized);
    }
    if n.resolvedTypes[e.node] == StringType {
      var a := EvalExpr(ctx, n, e.left, fuel);
      if a.Fail? {
        return Fail(a.failure);
      }
      var text :- AsString(a.value);
      var b := EvalExpr(ctx, n, e.right, fuel);
      if b.Fail? {
        return Fail(b.failure);
      }
      r := Concat(text, b.value);
    } else {
      var operands := EvalInts(ctx, n, e.left, e.right, fuel);
      if operands.Fail? {
        return Fail(operands.failure);
      }
      r := S.IntOperator(e, operands.value.0, operands.value.1);
    }
  }

  /** `-`, `*`, `%`, `<` and `<=`. */
  method EvalOperator(ctx: Context, n: S.Nodes, e: Expr, fuel: nat) returns (r: Outcome<Value>)
    requires e.Subtraction? || e.Multiplication? || e.Mod? || e.LesserThan? || e.LesserEqual?
    requires ctx.Valid()
    modifies ctx.scope, ctx`output, ctx`input
    ensures ctx.Valid() && Gives(ctx, S.Eval(n, e, old(ctx.State()), fuel), r)
    decreases fuel, 0, ExprSize(e), 0
  {
    assert S.Eval(n, e, ctx.State(), fuel) == S.EvalOperator(n, e, ctx.State(), fuel);
    var operands := EvalInts(ctx, n, e.left, e.right, fuel);
    if operands.Fail? {
      return Fail(operands.failure);
    }
    r := S.IntOperator(e, operands.value.0, operands.value.1);
  }

  /** `Equal.eval()`. */
  method EvalEqual(ctx: Context, n: S.Nodes, e: Expr, fuel: nat) returns (r: Outcome<Value>)
    requires e.Equal? && ctx.Valid()
    modifies ctx.scope, ctx`output, ctx`input
    ensures ctx.Valid() && Gives(ctx, S.Eval(n, e, old(ctx.State()), fuel), r)
    decreases fuel, 0, ExprSize(e), 0
  {
    assert S.Eval(n, e, ctx.State(), fuel) == S.EvalEqual(n, e, ctx.State(), fuel);
    var a := EvalExpr(ctx, n, e.left, fuel);
    if a.Fail? {
      return Fail(a.failure);
    }
    var b := EvalExpr(ctx, n, e.right, fuel);
    if b.Fail? {
      return Fail(b.failure);
    }
    r := Ok(BooleanValue(a.value == b.value));
  }

  /** `IfExpression.eval()`. */
  method EvalIf(ctx: Context, n: S.Nodes, e: Expr, fuel: nat) returns (r: Outcome<Value>)
    requires e.IfExpression? && ctx.Valid()
    modifies ctx.scope, ctx`output, ctx`input
    ensures ctx.Valid() && Gives(ctx, S.Eval(n, e, old(ctx.State()), fuel), r)
    decreases fuel, 0, ExprSize(e), 0
  {
    assert S.Eval(n, e, ctx.State(), fuel) == S.EvalIf(n, e, ctx.State(), fuel);
    var c := EvalExpr(ctx, n, e.condition, fuel);
    if c.Fail? {
      return Fail(c.failure);
    }
    var conditionMet :- AsBool(c.value);
    if conditionMet {
      r := EvalExpr(ctx, n, e.ifTrue, fuel);
    } else {
      r := EvalExpr(ctx, n, e.ifFalse, fuel);
    }
  }

  /** `MatchExpression.eval()`. */
  method EvalMatch(ctx: Context, n: S.Nodes, e: Expr, fuel: nat) returns (r: Outcome<Value>)
    requires e.MatchExpression? && ctx.Valid()
    modifies ctx.scope, ctx`output, ctx`input
    ensures ctx.Valid() && Gives(ctx, S.Eval(n, e, old(ctx.State()), fuel), r)
    decreases fuel, 0, ExprSize(e), 0
  {
    assert S.Eval(n, e, ctx.State(), fuel) == S.EvalMatch(n, e, ctx.State(), fuel);
    var matchValue := EvalExpr(ctx, n, e.value, fuel);
    if matchValue.Fail? {
      return Fail(matchValue.failure);
    }
    r := EvalCases(ctx, n, matchValue.value, e.patternValues, e.elseValue, fuel);
  }

  /** The cases of a match in a loop that returns at the first pattern equal to
      the scrutinee; after the last, the else value. */
  method EvalCases(ctx: Context, n: S.Nodes, v: Value, cases: seq<MatchCase>, elseValue: Expr, fuel: nat) returns (r: Outcome<Value>)
    requires ctx.Valid()
    modifies ctx.scope, ctx`output, ctx`input
    ensures ctx.Valid() && Gives(ctx, S.EvalCases(n, v, cases, elseValue, old(ctx.State()), fuel), r)
    decreases fuel, 0, CasesSize(cases) + ExprSize(elseValue), 3
  {
    var i := 0;
    while i < |cases|
      invariant 0 <= i <= |cases| && ctx.Valid()
      invariant S.EvalCases(n, v, cases, elseValue, old(ctx.State()), fuel)
             == S.EvalCases(n, v, cases[i..], elseValue, ctx.State(), fuel)
    {
      CasesSizeAt(cases, i);
      assert cases[i..][0] == cases[i] && cases[i..][1..] == cases[i + 1..];
      var pattern := EvalExpr(ctx, n, cases[i].pattern, fuel);
      if pattern.Fail? {
        return Fail(pattern.failure);
      }
      if v == pattern.value {
        r := EvalExpr(ctx, n, cases[i].result, fuel);
        return;
      }
      i := i + 1;
    }
    r := EvalExpr(ctx, n, elseValue, fuel);
  }

  /** `ExpressionBlock.eval()`. */
  method EvalBlock(ctx: Context, n: S.Nodes, e: Expr, fuel: nat) returns (r: Outcome<Value>)
    requires e.ExpressionBlock? && ctx.Valid()
    modifies ctx.scope, ctx`output, ctx`input
    ensures ctx.Valid() && Gives(ctx, S.Eval(n, e, old(ctx.State()), fuel), r)
    decreases fuel, 0, ExprSize(e), 0
  {
    assert S.Eval(n, e, ctx.State(), fuel) == S.EvalBlock(n, e, ctx.State(), fuel);
    ctx.Enter();
    var body := ExecAll(ctx, n, e.statements, fuel);
    if body.Fail? {
      return Fail(body.failure);
    }
    var v := EvalExpr(ctx, n, e.returnExpression, fuel);
    if v.Fail? {
      return Fail(v.failure);
    }
    var left := ctx.Leave();
    assert left.Ok?;
    r := v;
  }

  /** `DotCall.eval()`. */
  method EvalDotCall(ctx: Context, n: S.Nodes, e: Expr, fuel: nat) returns (r: Outcome<Value>)
    requires e.DotCall? && ctx.Valid()
    modifies ctx.scope, ctx`output, ctx`input
    ensures ctx.Valid() && Gives(ctx, S.Eval(n, e, old(ctx.State()), fuel), r)
    decreases fuel, 0, ExprSize(e), 0
  {
    assert S.Eval(n, e, ctx.State(), fuel) == S.EvalDotCall(n, e, ctx.State(), fuel);
    var target := EvalExpr(ctx, n, e.target, fuel);
    if target.Fail? {
      return Fail(target.failure);
    }
    if !target.value.DataObject? {
      return Fail(CastFailure);
    }
    if e.id !in target.value.values {
      return Fail(NullValue);
    }
    r := Ok(target.value.values[e.id]);
  }

  /** `ConstructorCall.eval()`. */
  method EvalConstructorCall(ctx: Context, n: S.Nodes, e: Expr, fuel: nat) returns (r: Outcome<Value>)
    requires e.ConstructorCall? && ctx.Valid()
    modifies ctx.scope, ctx`output, ctx`input
    ensures ctx.Valid() && Gives(ctx, S.Eval(n, e, old(ctx.State()), fuel), r)
    decreases fuel, 0, ExprSize(e), 0
  {
    assert S.Eval(n, e, ctx.State(), fuel) == S.EvalConstructorCall(n, e, ctx.State(), fuel);
    if e.node !in n.constructedTypes {
      return Fail(Uninitialized);
    }
    var values := EvalFields(ctx, n, e.assignments, fuel);
    if values.Fail? {
      return Fail(values.failure);
    }
    r := Ok(DataObject(n.constructedTypes[e.node], values.value));
  }

  /** The field values of a constructor call, in a loop, in source order. */
  method EvalFields(ctx: Context, n: S.Nodes, assignments: seq<FieldAssignment>, fuel: nat) returns (r: Outcome<map<string, Value>>)
    requires ctx.Valid()
    modifies ctx.scope, ctx`output, ctx`input
    ensures ctx.Valid() && Gives(ctx, S.EvalFields(n, assignments, map[], old(ctx.State()), fuel), r)
    decreases fuel, 0, AssignmentsSize(assignments), 3
  {
    var values := map[];
    var i := 0;
    while i < |assignments|
      invariant 0 <= i <= |assignments| && ctx.Valid()
      invariant S.EvalFields(n, assignments, map[], old(ctx.State()), fuel)
             == S.EvalFields(n, assignments[i..], values, ctx.State(), fuel)
    {
      AssignmentsSizeAt(assignments, i);
      assert assignments[i..][0] == assignments[i] && assignments[i..][1..] == assignments[i + 1..];
      var v := EvalExpr(ctx, n, assignments[i].value, fuel);
      if v.Fail? {
        return Fail(v.failure);
      }
      values := values[assignments[i].field := v.value];
      i := i + 1;
    }
    r := Ok(values);
  }

  /** `FunctionCall.eval()`: the arguments, then the resolved function. */
  method EvalCall(ctx: Context, n: S.Nodes, e: Expr, fuel: nat) returns (r: Outcome<Value>)
    requires e.FunctionCall? && ctx.Valid()
    modifies ctx.scope, ctx`output, ctx`input
    ensures ctx.Valid() && Gives(ctx, S.Eval(n, e, old(ctx.State()), fuel), r)
    decreases fuel, 0, ExprSize(e), 0
  {
    assert S.Eval(n, e, ctx.State(), fuel) == S.EvalCall(n, e, ctx.State(), fuel);
    if e.node !in n.resolvedArguments {
      return Fail(Uninitialized);
    }
    if fuel == 0 {
      return Fail(OutOfFuel);
    }
    var args := EvalArgs(ctx, n, WrapsOf(n.iioTypes, e.node), n.resolvedArguments[e.node], fuel - 1);
    if args.Fail? {
      return Fail(args.failure);
    }
    if e.node !in n.resolvedCalls {
      return Fail(Uninitialized);
    }
    r := Invoke(ctx, n, n.resolvedCalls[e.node], args.value, fuel - 1);
  }

  /** The argument values of a call, in a loop, left to right; an argument the
      checker flagged is wrapped for the interface it is passed as. */
  method EvalArgs(ctx: Context, n: S.Nodes, wraps: map<Expr, Type>, es: seq<Expr>, fuel: nat) returns (r: Outcome<seq<Value>>)
    requires ctx.Valid()
    modifies ctx.scope, ctx`output, ctx`input
    ensures ctx.Valid() && Gives(ctx, S.EvalArgs(n, wraps, es, [], old(ctx.State()), fuel), r)
    decreases fuel, 0, ExprsSize(es), 3
  {
    var args := [];
    var i := 0;
    while i < |es|
      invariant 0 <= i <= |es| && ctx.Valid()
      invariant S.EvalArgs(n, wraps, es, [], old(ctx.State()), fuel)
             == S.EvalArgs(n, wraps, es[i..], args, ctx.State(), fuel)
    {
      ExprsSizeAt(es, i);
      assert es[i..][0] == es[i] && es[i..][1..] == es[i + 1..];
      var v := EvalExpr(ctx, n, es[i], fuel);
      if v.Fail? {
        return Fail(v.failure);
      }
      var arg := if es[i] in wraps then S.ToIIO(ctx.State(), wraps[es[i]], v.value) else Ok(v.value);
      if arg.Fail? {
        return Fail(arg.failure);
      }
      args := args + [arg.value];
      i := i + 1;
    }
    r := Ok(args);
  }

  // ---------------------------------------------------------------- calls

  /** `Function.invoke(arguments)`. */
  method Invoke(ctx: Context, n: S.Nodes, f: Function, args: seq<Value>, fuel: nat) returns (r: Outcome<Value>)
    requires ctx.Valid()
    modifies ctx.scope, ctx`output, ctx`input
    ensures ctx.Valid() && Gives(ctx, S.Invoke(n, f, args, old(ctx.State()), fuel), r)
    decreases fuel, 1, 1
  {
    match f
    case CustomFunction(_, _, _, _, _, _) => r := InvokeCustom(ctx, n, f, args, fuel);
    case InterfaceFunction(_, _, _) => r := InvokeInterface(ctx, n, f, args, fuel);
    case BuiltInFunction(_, _, _, _) => r := InvokeBuiltIn(ctx, n, f, args, fuel);
  }

  /** A declared function: a layer is pushed on the captured one, the
      parameters bound, the body run, the result evaluated, the layer popped. */
  method InvokeCustom(ctx: Context, n: S.Nodes, f: Function, args: seq<Value>, fuel: nat) returns (r: Outcome<Value>)
    requires f.CustomFunction? && ctx.Valid()
    modifies ctx.scope, ctx`output, ctx`input
    ensures ctx.Valid() && Gives(ctx, S.Invoke(n, f, args, old(ctx.State()), fuel), r)
    decreases fuel, 1, 0
  {
    if f.declaration !in ctx.parentScopes {
      return Fail(Uninitialized);
    }
    ctx.EnterWith(ctx.parentScopes[f.declaration]);
    var bound := BindParams(ctx, n, f.arguments, args);
    if bound.Fail? {
      return Fail(bound.failure);
    }
    var body := ExecAll(ctx, n, f.statements, fuel);
    if body.Fail? {
      return Fail(body.failure);
    }
    var v := EvalExpr(ctx, n, f.returnExpression, fuel);
    if v.Fail? {
      return Fail(v.failure);
    }
    var left := ctx.Leave();
    assert left.Ok?;
    r := v;
  }

  /** `arguments.forEachIndexed { i, at -> scope.define(at.name, arguments[i]) }`. */
  method BindParams(ctx: Context, n: S.Nodes, params: seq<Parameter>, args: seq<Value>) returns (r: Outcome<()>)
    requires ctx.Valid()
    modifies ctx.scope
    ensures ctx.Valid() && Reaches(ctx, S.BindParams(old(ctx.State()), params, args), r)
  {
    var i := 0;
    while i < |params|
      invariant 0 <= i <= |params| && i <= |args| && ctx.Valid()
      invariant S.BindParams(old(ctx.State()), params, args) == S.BindParams(ctx.State(), params[i..], args[i..])
    {
      if i == |args| {
        return Fail(IndexOutOfBounds);
      }
      assert params[i..][0] == params[i] && params[i..][1..] == params[i + 1..];
      assert args[i..][0] == args[i] && args[i..][1..] == args[i + 1..];
      r := ctx.Define(params[i].name, args[i]);
      if r.Fail? {
        return;
      }
      i := i + 1;
    }
    r := Ok(());
  }

  /** An interface stub: the variant bound for the wrapped object's concrete
      type, called with the wrapped object in place of the wrapper. */
  method InvokeInterface(ctx: Context, n: S.Nodes, f: Function, args: seq<Value>, fuel: nat) returns (r: Outcome<Value>)
    requires f.InterfaceFunction? && ctx.Valid()
    modifies ctx.scope, ctx`output, ctx`input
    ensures ctx.Valid() && Gives(ctx, S.Invoke(n, f, args, old(ctx.State()), fuel), r)
    decreases fuel, 1, 0
  {
    if |args| == 0 {
      return Fail(IndexOutOfBounds);
    }
    if !args[0].IIO? {
      return Fail(CastFailure);
    }
    var argTypes := if |f.arguments| == 0 then [] else S.ParamTypes(f.arguments[1..]);
    EnvOf(ctx);
    var variant :- IIOGetVariant(args[0].functions, args[0].concreteType, f.name, argTypes, RuntimeView(ctx.RuntimeEnv()));
    if fuel == 0 {
      return Fail(OutOfFuel);
    }
    r := Invoke(ctx, n, variant, [args[0].value] + args[1..], fuel - 1);
  }

  /** `printLine` and `readLine`, with the console as the context's output log
      and input lines. */
  method InvokeBuiltIn(ctx: Context, n: S.Nodes, f: Function, args: seq<Value>, fuel: nat) returns (r: Outcome<Value>)
    requires f.BuiltInFunction? && ctx.Valid()
    modifies ctx`output, ctx`input
    ensures ctx.Valid() && Gives(ctx, S.Invoke(n, f, args, old(ctx.State()), fuel), r)
  {
    match f.native
    case PrintLine =>
      if |args| == 0 {
        return Fail(IndexOutOfBounds);
      }
      ctx.output := ctx.output + [args[0]];
      r := Ok(UnitValue);
    case ReadLine =>
      if |ctx.input| == 0 {
        return Fail(EndOfInput);
      }
      r := Ok(StringValue(ctx.input[0]));
      ctx.input := ctx.input[1..];
  }

  // ------------------------------------------------------------- statements

  /** `Statement.eval()`. */
  method Exec(ctx: Context, n: S.Nodes, s: Stmt, fuel: nat) returns (r: Outcome<()>)
    requires ctx.Valid()
    modifies ctx.scope, ctx`output, ctx`input
    ensures ctx.Valid() && Gives(ctx, S.Exec(n, s, old(ctx.State()), fuel), r)
    decreases fuel, 0, StmtSize(s), 1
  {
    match s
    case ExpressionStatement(e) =>
      var v := EvalExpr(ctx, n, e, fuel);
      r := if v.Fail? then Fail(v.failure) else Ok(());
    case VariableDeclaration(_, _, _, _) => r := ExecDeclaration(ctx, n, s, fuel);
    case VariableAssignment(_, _, _) => r := ExecAssignment(ctx, n, s, fuel);
    case ForLoop(_, _, _, _) => r := ExecFor(ctx, n, s, fuel);
    case WhileLoop(_, _) => r := ExecWhile(ctx, n, s, fuel);
  }

  /** `VariableDeclaration.eval()`: a name with an initializer is defined in the
      top layer. */
  method ExecDeclaration(ctx: Context, n: S.Nodes, s: Stmt, fuel: nat) returns (r: Outcome<()>)
    requires s.VariableDeclaration? && ctx.Valid()
    modifies ctx.scope, ctx`output, ctx`input
    ensures ctx.Valid() && Gives(ctx, S.Exec(n, s, old(ctx.State()), fuel), r)
    decreases fuel, 0, StmtSize(s), 0
  {
    if s.initializer.None? {
      return Ok(());
    }
    assert StmtSize(s) == 1 + ExprSize(s.initializer.value);
    var v := EvalExpr(ctx, n, s.initializer.value, fuel);
    if v.Fail? {
      return Fail(v.failure);
    }
    r := ctx.Define(s.name, v.value);
  }

  /** `VariableAssignment.eval()`: the owning layer's binding is updated. */
  method ExecAssignment(ctx: Context, n: S.Nodes, s: Stmt, fuel: nat) returns (r: Outcome<()>)
    requires s.VariableAssignment? && ctx.Valid()
    modifies ctx.scope, ctx`output, ctx`input
    ensures ctx.Valid() && Gives(ctx, S.Exec(n, s, old(ctx.State()), fuel), r)
    decreases fuel, 0, StmtSize(s), 0
  {
    var v := EvalExpr(ctx, n, s.value, fuel);
    if v.Fail? {
      return Fail(v.failure);
    }
    r := ctx.Assign(s.name, v.value);
  }

  /** `ForLoop.eval()`: one layer for the whole loop. */
  method ExecFor(ctx: Context, n: S.Nodes, s: Stmt, fuel: nat) returns (r: Outcome<()>)
    requires s.ForLoop? && ctx.Valid()
    modifies ctx.scope, ctx`output, ctx`input
    ensures ctx.Valid() && Gives(ctx, S.Exec(n, s, old(ctx.State()), fuel), r)
    decreases fuel, 0, StmtSize(s), 0
  {
    ctx.Enter();
    var passes := ForFrom(ctx, n, s, s.first as int, fuel);
    if passes.Fail? {
      return passes;
    }
    UnitOk(passes);
    r := ctx.Leave();
  }

  /** The passes of a for loop from iterator value `first` on, in a loop: each
      binds the iterator in the loop's layer and runs the body. */
  method ForFrom(ctx: Context, n: S.Nodes, s: Stmt, first: int, fuel: nat) returns (r: Outcome<()>)
    requires s.ForLoop? && s.first as int <= first && ctx.Valid()
    modifies ctx.scope, ctx`output, ctx`input
    ensures ctx.Valid() && Gives(ctx, S.ForFrom(n, s, first, old(ctx.State()), fuel), r)
    decreases fuel, 0, StmtsSize(s.statements), 3
  {
    var i := first;
    while i <= s.last as int
      invariant first <= i && ctx.Valid()
      invariant S.ForFrom(n, s, first, old(ctx.State()), fuel) == S.ForFrom(n, s, i, ctx.State(), fuel)
      decreases s.last as int - i
    {
      ghost var before := ctx.State();
      r := ForPass(ctx, n, s, i, fuel);
      ForFromUnfold(n, s, i, before, fuel);
      if r.Fail? {
        return;
      }
      i := i + 1;
    }
    r := Ok(());
  }

  /** A for loop from `i` is one pass, then the loop from `i + 1`. */
  lemma ForFromUnfold(n: S.Nodes, s: Stmt, i: int, m: Runtime.Machine, fuel: nat)
    requires s.ForLoop? && s.first as int <= i <= s.last as int && Runtime.Valid(m)
    ensures var pass := S.ForPass(n, s, i, m, fuel);
      S.ForFrom(n, s, i, m, fuel) == if pass.result.Fail? then pass else S.ForFrom(n, s, i + 1, pass.m, fuel)
  {
  }

  /** One pass of a for loop. */
  method ForPass(ctx: Context, n: S.Nodes, s: Stmt, i: int, fuel: nat) returns (r: Outcome<()>)
    requires s.ForLoop? && s.first as int <= i <= s.last as int && ctx.Valid()
    modifies ctx.scope, ctx`output, ctx`input
    ensures ctx.Valid() && Gives(ctx, S.ForPass(n, s, i, old(ctx.State()), fuel), r)
    decreases fuel, 0, StmtsSize(s.statements), 3, 0
  {
    var defined := ctx.Define(s.iteratorName, IntValue(i as Int32));
    if defined.Fail? {
      return defined;
    }
    r := ExecAll(ctx, n, s.statements, fuel);
  }

  /** `WhileLoop.eval()`: one layer for the whole loop. */
  method ExecWhile(ctx: Context, n: S.Nodes, s: Stmt, fuel: nat) returns (r: Outcome<()>)
    requires s.WhileLoop? && ctx.Valid()
    modifies ctx.scope, ctx`output, ctx`input
    ensures ctx.Valid() && Gives(ctx, S.Exec(n, s, old(ctx.State()), fuel), r)
    decreases fuel, 0, StmtSize(s), 0
  {
    ctx.Enter();
    var passes := WhileFrom(ctx, n, s, fuel);
    if passes.Fail? {
      return passes;
    }
    UnitOk(passes);
    r := ctx.Leave();
  }

  /** The passes of a while loop, in a loop: the condition is evaluated before
      each pass, and anything but `true` ends the loop. */
  method WhileFrom(ctx: Context, n: S.Nodes, s: Stmt, fuel: nat) returns (r: Outcome<()>)
    requires s.WhileLoop? && ctx.Valid()
    modifies ctx.scope, ctx`output, ctx`input
    ensures ctx.Valid() && Gives(ctx, S.WhileFrom(n, s, old(ctx.State()), fuel), r)
    decreases fuel, 0, ExprSize(s.condition) + StmtsSize(s.statements), 3
  {
    var budget: nat := fuel;
    while true
      invariant budget <= fuel && ctx.Valid()
      invariant S.WhileFrom(n, s, old(ctx.State()), fuel) == S.WhileFrom(n, s, ctx.State(), budget)
      decreases budget
    {
      var c := EvalExpr(ctx, n, s.condition, budget);
      if c.Fail? {
        return Fail(c.failure);
      }
      if c.value != BooleanValue(true) {
        return Ok(());
      }
      if budget == 0 {
        return Fail(OutOfFuel);
      }
      r := ExecAll(ctx, n, s.statements, budget);
      if r.Fail? {
        return;
      }
      budget := budget - 1;
    }
  }

  /** `statements.forEach(Statement::eval)`. */
  method ExecAll(ctx: Context, n: S.Nodes, ss: seq<Stmt>, fuel: nat) returns (r: Outcome<()>)
    requires ctx.Valid()
    modifies ctx.scope, ctx`output, ctx`input
    ensures ctx.Valid() && Gives(ctx, S.ExecAll(n, ss, old(ctx.State()), fuel), r)
    decreases fuel, 0, StmtsSize(ss), 2
  {
    var i := 0;
    while i < |ss|
      invariant 0 <= i <= |ss| && ctx.Valid()
      invariant S.ExecAll(n, ss, old(ctx.State()), fuel) == S.ExecAll(n, ss[i..], ctx.State(), fuel)
    {
      StmtsSizeAt(ss, i);
      assert ss[i..][0] == ss[i] && ss[i..][1..] == ss[i + 1..];
      r := Exec(ctx, n, ss[i], fuel);
      if r.Fail? {
        return;
      }
      i := i + 1;
    }
    r := Ok(());
  }
}
