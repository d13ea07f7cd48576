/** The type checker: `type()` of every expression node and `typeCheck()` of
    every statement node, run against the shared `Context`. Each method is
    proved to return what the typing rules give for the bindings visible when it
    starts, and to append exactly the rules' diagnostics; when it succeeds it
    leaves both binding stacks as it found them (a statement may have bound
    names in the top typing layer). */
module Checker {
  import opened Wrappers
  import opened Syntax
  import opened BuiltIns
  import opened Types
  import opened Diagnostics
  import opened Overloads
  import opened Annotations
  import opened Values
  import opened Scopes
  import opened Context
  import opened TypingRules

  /** The runtime stack is as it was (type checking may push runtime layers, but
      pops them again). */
  twostate predicate RuntimeKept(ctx: Context)
    reads ctx.scope
  {
    ctx.scope.stack == old(ctx.scope.stack)
  }

  /** What a successful `type()` leaves: both stacks as they were, every existing
      layer kept. */
  twostate predicate ScopesKept(ctx: Context)
    reads ctx.scope, ctx.typingScope
  {
    ctx.typingScope.stack == old(ctx.typingScope.stack) && Extends(old(ctx.typingScope.layers), ctx.typingScope.layers)
    && RuntimeKept(ctx)
  }

  /** What a successful `typeCheck()` leaves: both stacks as they were; of the
      existing typing layers only the top one may hold new bindings. */
  twostate predicate TopWritten(ctx: Context)
    reads ctx.scope, ctx.typingScope
  {
    ctx.typingScope.stack == old(ctx.typingScope.stack)
    && ExtendsAbove(old(ctx.typingScope.layers), ctx.typingScope.layers, ctx.typingScope.stack)
    && RuntimeKept(ctx)
  }

  /** The method gave the rule's outcome and appended the rule's diagnostics. */
  twostate predicate Follows<T>(ctx: Context, new rule: Typing<T>, new r: Outcome<T>)
    reads ctx
  {
    r == rule.result && ctx.typeErrors == old(ctx.typeErrors) + rule.errors
  }

  /** What `populateContext` leaves on a call node once the call has resolved:
      the variant, the argument expressions, and a wrapping mark for every
      argument passed to an interface parameter of another type. */
  predicate CallRecorded(ctx: Context, node: nat, call: Call)
    reads ctx
  {
    call.Resolved? ==>
      node in ctx.resolvedCalls && ctx.resolvedCalls[node] == call.variant
      && node in ctx.resolvedArguments && ctx.resolvedArguments[node] == ArgValues(call.arguments)
      && |call.arguments| <= |call.variant.arguments| && node in ctx.iioTypes
      && forall i :: 0 <= i < |call.arguments| && Wrapped(call.variant.arguments, call.arguments, i) ==>
           call.arguments[i].value in ctx.iioTypes[node]
  }

  /** A statement's outcome: the exception it stops with, or none. */
  function Done<T>(o: Outcome<T>): (r: Outcome<()>)
    ensures r.Fail? <==> o.Fail?
    ensures r.Fail? ==> r.failure == o.failure
  {
    if o.Fail? then Fail(o.failure) else Ok(())
  }

  /** Diagnostics appended call by call are the rule's diagnostics appended at once. */
  lemma Appended<T>(a: seq<T>, b: seq<T>, c: seq<T>)
    ensures a + b + c == a + (b + c)
  {
  }

  lemma AppendedThrice<T>(a: seq<T>, b: seq<T>, c: seq<T>, d: seq<T>)
    ensures a + b + c + d == a + (b + (c + d))
  {
  }

  lemma AppendedInOrder<T>(a: seq<T>, b: seq<T>, c: seq<T>, d: seq<T>)
    ensures a + b + c + d == a + (b + c + d)
  {
  }

  // ------------------------------------------------------------ expressions

  /** `Expression.type()`. */
  method TypeOf(ctx: Context, e: Expr) returns (r: Outcome<Type>)
    requires ctx.Valid() && |ctx.typingScope.stack| > 0
    modifies ctx`typeErrors, ctx`resolvedTypes, ctx`resolvedCalls, ctx`resolvedArguments, ctx`iioTypes,
             ctx`constructedTypes, ctx.scope, ctx.typingScope
    ensures ctx.Valid()
    ensures Follows(ctx, Typed(e, old(ctx.TypingEnv())), r)
    ensures r.Ok? ==> ScopesKept(ctx) && ctx.TypingEnv() == old(ctx.TypingEnv())
    decreases ExprSize(e), 2
  {
    match e
    case IntLiteral(_) => r := Ok(IntegerType);
    case BooleanLiteral(_) => r := Ok(BooleanType);
    case StringLiteral(_) => r := Ok(StringType);
    case SymbolLiteral(symbol) => r := Ok(SymbolType(symbol));
    case IdExpression(id, loc) => r := TypeOfId(ctx, id, loc);
    case BracketExpression(inner) => r := TypeOf(ctx, inner);
    case Negation(_) => r := Ok(BooleanType);
    case UnaryMinus(_) => r := TypeOfUnaryMinus(ctx, e);
    case Addition(_, _, _) => r := TypeOfAddition(ctx, e);
    case Subtraction(_, _) => r := TypeOfOperator(ctx, e);
    case Multiplication(_, _) => r := TypeOfOperator(ctx, e);
    case Mod(_, _) => r := TypeOfOperator(ctx, e);
    case LesserThan(_, _) => r := TypeOfOperator(ctx, e);
    case LesserEqual(_, _) => r := TypeOfOperator(ctx, e);
    case Equal(_, _) => r := TypeOfOperator(ctx, e);
    case TypeCast(_, asType) => r := ToType(ctx.TypingEnv(), asType);
    case IfExpression(_, _, _) => r := TypeOfIf(ctx, e);
    case MatchExpression(_, _, _) => r := TypeOfMatch(ctx, e);
    case ExpressionBlock(_, _) => r := TypeOfBlock(ctx, e);
    case DotCall(_, _, _) => r := TypeOfDotCall(ctx, e);
    case FunctionCall(_, _, _, _) => r := TypeOfCall(ctx, e);
    case ConstructorCall(_, _, _, _) => r := TypeOfConstructorCall(ctx, e);
  }

  /** `IdExpression.type()`: the bound type; the `IllegalStateException` of an
      unbound name is caught, one `UnknownIdentifier` added, and `Nothing` given. */
  method TypeOfId(ctx: Context, id: string, loc: Loc) returns (r: Outcome<Type>)
    requires ctx.Valid()
    modifies ctx`typeErrors
    ensures Follows(ctx, IdType(ctx.TypingEnv(), id, loc), r)
  {
    var bound := ctx.typingScope.Get(id);
    if bound.Fail? {
      ctx.typeErrors := ctx.typeErrors + [UnknownIdentifier(id, loc)];
      r := Ok(NothingType);
    } else {
      r := bound;
    }
  }

  /** `UnaryMinus.type()`: the operand is typed, and the node is `Integer`. */
  method TypeOfUnaryMinus(ctx: Context, e: Expr) returns (r: Outcome<Type>)
    requires e.UnaryMinus? && ctx.Valid() && |ctx.typingScope.stack| > 0
    modifies ctx`typeErrors, ctx`resolvedTypes, ctx`resolvedCalls, ctx`resolvedArguments, ctx`iioTypes,
             ctx`constructedTypes, ctx.scope, ctx.typingScope
    ensures ctx.Valid()
    ensures Follows(ctx, Typed(e, old(ctx.TypingEnv())), r)
    ensures r.Ok? ==> ScopesKept(ctx) && ctx.TypingEnv() == old(ctx.TypingEnv())
    decreases ExprSize(e), 0
  {
    ghost var env := ctx.TypingEnv();
    var operand := TypeOf(ctx, e.operand);
    if operand.Fail? {
      return Fail(operand.failure);
    }
    assert Typed(e.operand, env).errors + [] == Typed(e.operand, env).errors;
    r := Ok(IntegerType);
  }

  /** `Addition.type()`: the left operand's type, recorded as the node's resolved
      type; the left operand is then typed a second time, and the right one once.
      The two types are never compared. */
  method TypeOfAddition(ctx: Context, e: Expr) returns (r: Outcome<Type>)
    requires e.Addition? && ctx.Valid() && |ctx.typingScope.stack| > 0
    modifies ctx`typeErrors, ctx`resolvedTypes, ctx`resolvedCalls, ctx`resolvedArguments, ctx`iioTypes,
             ctx`constructedTypes, ctx.scope, ctx.typingScope
    ensures ctx.Valid()
    ensures Follows(ctx, Typed(e, old(ctx.TypingEnv())), r)
    ensures r.Ok? ==> ScopesKept(ctx) && ctx.TypingEnv() == old(ctx.TypingEnv())
    decreases ExprSize(e), 0
  {
    ghost var env, errors := ctx.TypingEnv(), ctx.typeErrors;
    ghost var l, rt := Typed(e.left, env), Typed(e.right, env);
    TypedAddition(e.node, e.left, e.right, env, l, rt);
    var left := TypeOf(ctx, e.left);
    if left.Fail? {
      return left;
    }
    ctx.resolvedTypes := ctx.resolvedTypes[e.node := left.value];
    ghost var first := ctx.typingScope.layers;
    var again := TypeOf(ctx, e.left);
    Appended(errors, l.errors, l.errors);
    if again.Fail? {
      return again;
    }
    ExtendsTransitive(old(ctx.typingScope.layers), first, ctx.typingScope.layers);
    ghost var second := ctx.typingScope.layers;
    var right := TypeOf(ctx, e.right);
    AppendedThrice(errors, l.errors, l.errors, rt.errors);
    if right.Fail? {
      return right;
    }
    ExtendsTransitive(old(ctx.typingScope.layers), second, ctx.typingScope.layers);
    assert rt.errors + [] == rt.errors;
    r := left;
  }

  /** `Subtraction`, `Multiplication`, `Mod`, `LesserThan`, `LesserEqual` and
      `Equal`: both operands are typed, in order, and the node has the operator's
      fixed type. */
  method TypeOfOperator(ctx: Context, e: Expr) returns (r: Outcome<Type>)
    requires IsOperator(e) && ctx.Valid() && |ctx.typingScope.stack| > 0
    modifies ctx`typeErrors, ctx`resolvedTypes, ctx`resolvedCalls, ctx`resolvedArguments, ctx`iioTypes,
             ctx`constructedTypes, ctx.scope, ctx.typingScope
    ensures ctx.Valid()
    ensures Follows(ctx, Typed(e, old(ctx.TypingEnv())), r)
    ensures r.Ok? ==> ScopesKept(ctx) && ctx.TypingEnv() == old(ctx.TypingEnv())
    decreases ExprSize(e), 0
  {
    ghost var env, errors := ctx.TypingEnv(), ctx.typeErrors;
    ghost var l, rt := Typed(e.left, env), Typed(e.right, env);
    TypedOperator(e, env, l, rt);
    var left := TypeOf(ctx, e.left);
    if left.Fail? {
      return left;
    }
    ghost var first := ctx.typingScope.layers;
    var right := TypeOf(ctx, e.right);
    Appended(errors, l.errors, rt.errors);
    if right.Fail? {
      return right;
    }
    ExtendsTransitive(old(ctx.typingScope.layers), first, ctx.typingScope.layers);
    assert rt.errors + [] == rt.errors;
    r := Ok(OperatorType(e));
  }

  /** `IfExpression.type()`: the condition is typed but its type is not checked;
      the node's type is the union of the two branch types. */
  method TypeOfIf(ctx: Context, e: Expr) returns (r: Outcome<Type>)
    requires e.IfExpression? && ctx.Valid() && |ctx.typingScope.stack| > 0
    modifies ctx`typeErrors, ctx`resolvedTypes, ctx`resolvedCalls, ctx`resolvedArguments, ctx`iioTypes,
             ctx`constructedTypes, ctx.scope, ctx.typingScope
    ensures ctx.Valid()
    ensures Follows(ctx, Typed(e, old(ctx.TypingEnv())), r)
    ensures r.Ok? ==> ScopesKept(ctx) && ctx.TypingEnv() == old(ctx.TypingEnv())
    decreases ExprSize(e), 0
  {
    ghost var env, errors := ctx.TypingEnv(), ctx.typeErrors;
    ghost var tc, tt, tf := Typed(e.condition, env), Typed(e.ifTrue, env), Typed(e.ifFalse, env);
    TypedIf(e.condition, e.ifTrue, e.ifFalse, env, tc, tt, tf);
    var condition := TypeOf(ctx, e.condition);
    if condition.Fail? {
      return condition;
    }
    ghost var first := ctx.typingScope.layers;
    var ifTrue := TypeOf(ctx, e.ifTrue);
    if ifTrue.Fail? {
      return ifTrue;
    }
    ExtendsTransitive(old(ctx.typingScope.layers), first, ctx.typingScope.layers);
    ghost var second := ctx.typingScope.layers;
    var ifFalse := TypeOf(ctx, e.ifFalse);
    AppendedThrice(errors, tc.errors, tt.errors, tf.errors);
    if ifFalse.Fail? {
      return ifFalse;
    }
    ExtendsTransitive(old(ctx.typingScope.layers), second, ctx.typingScope.layers);
    r := Ok(Union({ifTrue.value, ifFalse.value}));
  }

  /** `MatchExpression.type()`: the scrutinee is typed; each case's pattern is
      typed and dropped and its result's type collected; the `else` type joins
      them, and the node's type is their union. */
  method TypeOfMatch(ctx: Context, e: Expr) returns (r: Outcome<Type>)
    requires e.MatchExpression? && ctx.Valid() && |ctx.typingScope.stack| > 0
    modifies ctx`typeErrors, ctx`resolvedTypes, ctx`resolvedCalls, ctx`resolvedArguments, ctx`iioTypes,
             ctx`constructedTypes, ctx.scope, ctx.typingScope
    ensures ctx.Valid()
    ensures Follows(ctx, Typed(e, old(ctx.TypingEnv())), r)
    ensures r.Ok? ==> ScopesKept(ctx) && ctx.TypingEnv() == old(ctx.TypingEnv())
    decreases ExprSize(e), 0
  {
    ghost var env, errors := ctx.TypingEnv(), ctx.typeErrors;
    ghost var v, tcases, otherwise := Typed(e.value, env), TypedCases(e.patternValues, env), Typed(e.elseValue, env);
    TypedMatch(e, env, v, tcases, otherwise);
    var value := TypeOf(ctx, e.value);
    if value.Fail? {
      return value;
    }
    ghost var first := ctx.typingScope.layers;
    var resultTypes := TypeOfCases(ctx, e.patternValues);
    if resultTypes.Fail? {
      return Fail(resultTypes.failure);
    }
    ExtendsTransitive(old(ctx.typingScope.layers), first, ctx.typingScope.layers);
    ghost var second := ctx.typingScope.layers;
    var elseType := TypeOf(ctx, e.elseValue);
    AppendedThrice(errors, v.errors, tcases.errors, otherwise.errors);
    if elseType.Fail? {
      return elseType;
    }
    ExtendsTransitive(old(ctx.typingScope.layers), second, ctx.typingScope.layers);
    r := Ok(Union(resultTypes.value + {elseType.value}));
  }

  /** The cases of a match in order: each pattern is typed and its type dropped,
      each result's type collected. */
  method TypeOfCases(ctx: Context, cases: seq<MatchCase>) returns (r: Outcome<set<Type>>)
    requires ctx.Valid() && |ctx.typingScope.stack| > 0
    modifies ctx`typeErrors, ctx`resolvedTypes, ctx`resolvedCalls, ctx`resolvedArguments, ctx`iioTypes,
             ctx`constructedTypes, ctx.scope, ctx.typingScope
    ensures ctx.Valid()
    ensures Follows(ctx, TypedCases(cases, old(ctx.TypingEnv())), r)
    ensures r.Ok? ==> ScopesKept(ctx) && ctx.TypingEnv() == old(ctx.TypingEnv())
    decreases CasesSize(cases), 2
  {
    ghost var env := ctx.TypingEnv();
    var resultTypes: set<Type> := {};
    var i := 0;
    assert cases[..0] == [];
    while i < |cases|
      invariant 0 <= i <= |cases|
      invariant ctx.Valid() && |ctx.typingScope.stack| > 0
      invariant TypedCases(cases[..i], env).result == Ok(resultTypes)
      invariant ctx.typeErrors == old(ctx.typeErrors) + TypedCases(cases[..i], env).errors
      invariant ScopesKept(ctx) && ctx.TypingEnv() == env
    {
      ghost var before, p, rt := TypedCases(cases[..i], env), Typed(cases[i].pattern, env), Typed(cases[i].result, env);
      TypedCasesPrefixStep(cases, i, env, before, p, rt);
      ghost var start := ctx.typingScope.layers;
      var result := TypeOfCase(ctx, cases, i);
      Appended(old(ctx.typeErrors), before.errors, p.errors + rt.errors);
      Appended(before.errors, p.errors, rt.errors);
      if result.Fail? {
        TypedCasesStops(cases, i + 1, env);
        return Fail(result.failure);
      }
      ExtendsTransitive(old(ctx.typingScope.layers), start, ctx.typingScope.layers);
      resultTypes := resultTypes + {result.value};
      i := i + 1;
    }
    assert cases[..i] == cases;
    r := Ok(resultTypes);
  }

  /** One case of a match: its pattern is typed and the type dropped, then its
      result is typed. */
  method TypeOfCase(ctx: Context, cases: seq<MatchCase>, i: nat) returns (r: Outcome<Type>)
    requires i < |cases| && ctx.Valid() && |ctx.typingScope.stack| > 0
    modifies ctx`typeErrors, ctx`resolvedTypes, ctx`resolvedCalls, ctx`resolvedArguments, ctx`iioTypes,
             ctx`constructedTypes, ctx.scope, ctx.typingScope
    ensures ctx.Valid()
    ensures Follows(ctx, Then(Typed(cases[i].pattern, old(ctx.TypingEnv())), Typed(cases[i].result, old(ctx.TypingEnv()))), r)
    ensures r.Ok? ==> ScopesKept(ctx) && ctx.TypingEnv() == old(ctx.TypingEnv())
    decreases CasesSize(cases), 1
  {
    ghost var env := ctx.TypingEnv();
    CasesSizeAt(cases, i);
    var pattern := TypeOf(ctx, cases[i].pattern);
    if pattern.Fail? {
      return Fail(pattern.failure);
    }
    ghost var middle := ctx.typingScope.layers;
    r := TypeOf(ctx, cases[i].result);
    Appended(old(ctx.typeErrors), Typed(cases[i].pattern, env).errors, Typed(cases[i].result, env).errors);
    if r.Ok? {
      ExtendsTransitive(old(ctx.typingScope.layers), middle, ctx.typingScope.layers);
    }
  }

  /** `ExpressionBlock.type()`: a typing layer is pushed, the statements are
      checked in it, the result expression is typed, and the layer is popped.
      An exception skips the pop. */
  method TypeOfBlock(ctx: Context, e: Expr) returns (r: Outcome<Type>)
    requires e.ExpressionBlock? && ctx.Valid() && |ctx.typingScope.stack| > 0
    modifies ctx`typeErrors, ctx`resolvedTypes, ctx`resolvedCalls, ctx`resolvedArguments, ctx`iioTypes,
             ctx`constructedTypes, ctx.scope, ctx.typingScope
    ensures ctx.Valid()
    ensures Follows(ctx, Typed(e, old(ctx.TypingEnv())), r)
    ensures r.Ok? ==> ScopesKept(ctx) && ctx.TypingEnv() == old(ctx.TypingEnv())
    decreases ExprSize(e), 0
  {
    ghost var env := ctx.TypingEnv();
    ghost var layers, stack := ctx.typingScope.layers, ctx.typingScope.stack;
    TypedBlock(e, env, BlockTyped(e, env));
    ctx.typingScope.Enter();
    ghost var pushed := Layer(map[], Some(stack[|stack| - 1]));
    var checked := TypeCheckAll(ctx, e.statements);
    if checked.Fail? {
      return Fail(checked.failure);
    }
    PushedLayerAbsorbs(layers, pushed, ctx.typingScope.layers, ctx.typingScope.stack);
    var result := TypeOf(ctx, e.returnExpression);
    if result.Fail? {
      return result;
    }
    var left := ctx.typingScope.Leave();
    SameStackSameEnv(layers, ctx.typingScope.layers, stack);
    r := result;
  }

  /** `DotCall.type()`. The target's type name is looked up without a guard; a
      record with the field gives the field's type. Otherwise the name is looked
      up as a function: a function gives it pre-applied to the target, another
      binding throws, and no binding adds `UndeclaredField` and gives `Nothing`. */
  method TypeOfDotCall(ctx: Context, e: Expr) returns (r: Outcome<Type>)
    requires e.DotCall? && ctx.Valid() && |ctx.typingScope.stack| > 0
    modifies ctx`typeErrors, ctx`resolvedTypes, ctx`resolvedCalls, ctx`resolvedArguments, ctx`iioTypes,
             ctx`constructedTypes, ctx.scope, ctx.typingScope
    ensures ctx.Valid()
    ensures Follows(ctx, Typed(e, old(ctx.TypingEnv())), r)
    ensures r.Ok? ==> ScopesKept(ctx) && ctx.TypingEnv() == old(ctx.TypingEnv())
    decreases ExprSize(e), 0
  {
    ghost var env, errors := ctx.TypingEnv(), ctx.typeErrors;
    ghost var t := Typed(e.target, env);
    TypedDotCall(e.target, e.id, e.loc, env, t);
    var target := TypeOf(ctx, e.target);
    if target.Fail? {
      return target;
    }
    ghost var d := DotCallType(env, e.target, target.value, e.id, e.loc);
    r := MemberOf(ctx, e.target, target.value, e.id, e.loc);
    Appended(errors, t.errors, d.errors);
  }

  /** What `DotCall.type()` does once the target is typed. */
  method MemberOf(ctx: Context, target: Expr, targetType: Type, id: string, loc: Loc) returns (r: Outcome<Type>)
    requires ctx.Valid()
    modifies ctx`typeErrors
    ensures Follows(ctx, DotCallType(ctx.TypingEnv(), target, targetType, id, loc), r)
  {
    var owner := ctx.typingScope.Get(targetType.name);
    if owner.Fail? {
      return Fail(owner.failure);
    }
    if owner.value.DataType? {
      var fieldType := FieldNamed(owner.value.fields, id);
      if fieldType.Some? {
        return Ok(fieldType.value);
      }
    }
    var named := ctx.typingScope.Get(id);
    if named.Fail? {
      ctx.typeErrors := ctx.typeErrors + [UndeclaredField(id, targetType, loc)];
      return Ok(NothingType);
    }
    if !named.value.OverloadedFunction? {
      return Fail(NotAFunction(id));
    }
    r := Ok(PreAppliedFunction(id, Argument(target, targetType)));
  }

  /** `FunctionCall.type()`. A pre-applied target contributes its receiver as
      first argument and is looked up again by name, without a guard; a target
      that is not an overload set types as `Nothing` before any argument is
      typed. Otherwise the arguments are typed in order, the variant resolved,
      and the node's state populated; the node has the variant's return type. */
  method TypeOfCall(ctx: Context, e: Expr) returns (r: Outcome<Type>)
    requires e.FunctionCall? && ctx.Valid() && |ctx.typingScope.stack| > 0
    modifies ctx`typeErrors, ctx`resolvedTypes, ctx`resolvedCalls, ctx`resolvedArguments, ctx`iioTypes,
             ctx`constructedTypes, ctx.scope, ctx.typingScope
    ensures ctx.Valid()
    ensures Follows(ctx, Typed(e, old(ctx.TypingEnv())), r)
    ensures r.Ok? ==> CallOf(e, old(ctx.TypingEnv())).result.Ok?
                      && CallRecorded(ctx, e.node, CallOf(e, old(ctx.TypingEnv())).result.value)
    ensures r.Ok? ==> ScopesKept(ctx) && ctx.TypingEnv() == old(ctx.TypingEnv())
    decreases ExprSize(e), 1
  {
    ghost var env, errors := ctx.TypingEnv(), ctx.typeErrors;
    ghost var t := Typed(e.target, env);
    ghost var call := CallOf(e, env);
    TypedCall(e, env, call);
    assert call == CallRule(env, t, TypedArgs(e.arguments, env), e.loc);
    var target := TypeOf(ctx, e.target);
    if target.Fail? {
      return target;
    }
    var callee := Callee(target.value, []);
    if target.value.PreAppliedFunction? {
      var fetched := ctx.typingScope.Get(target.value.name);
      if fetched.Fail? {
        return Fail(fetched.failure);
      }
      callee := Callee(fetched.value, [target.value.firstArgument]);
    }
    assert callee == CallTarget(env, t.result.value).value;
    ghost var layers := ctx.typingScope.layers;
    r := ApplyCall(ctx, e, callee);
    Appended(errors, t.errors, ApplyRule(env, callee, TypedArgs(e.arguments, env), e.loc).errors);
    if r.Ok? {
      ExtendsTransitive(old(ctx.typingScope.layers), layers, ctx.typingScope.layers);
    }
  }

  /** The rest of `FunctionCall.type` once the callee is known. */
  method ApplyCall(ctx: Context, e: Expr, callee: Callee) returns (r: Outcome<Type>)
    requires e.FunctionCall? && ctx.Valid() && |ctx.typingScope.stack| > 0
    modifies ctx`typeErrors, ctx`resolvedTypes, ctx`resolvedCalls, ctx`resolvedArguments, ctx`iioTypes,
             ctx`constructedTypes, ctx.scope, ctx.typingScope
    ensures ctx.Valid()
    ensures var call := ApplyRule(old(ctx.TypingEnv()), callee, TypedArgs(e.arguments, old(ctx.TypingEnv())), e.loc);
      Follows(ctx, Typing(if call.result.Fail? then Fail(call.result.failure) else Ok(call.result.value.ResultType()), call.errors), r)
    ensures var call := ApplyRule(old(ctx.TypingEnv()), callee, TypedArgs(e.arguments, old(ctx.TypingEnv())), e.loc);
      r.Ok? ==> call.result.Ok? && CallRecorded(ctx, e.node, call.result.value)
    ensures r.Ok? ==> ScopesKept(ctx) && ctx.TypingEnv() == old(ctx.TypingEnv())
    decreases ExprSize(e), 0
  {
    if !callee.functionType.OverloadedFunction? {
      return Ok(NothingType);
    }
    ghost var env, errors := ctx.TypingEnv(), ctx.typeErrors;
    ghost var args := TypedArgs(e.arguments, env);
    var typed := TypeOfArgs(ctx, e.arguments);
    if typed.Fail? {
      return Fail(typed.failure);
    }
    var arguments := callee.leading + typed.value;
    ghost var wraps := WrapsOf(ctx.iioTypes, e.node);
    var resolved := ResolveCall(ctx, e.node, callee.functionType, arguments, e.loc);
    Appended(errors, args.errors, Resolve(env, callee.functionType, arguments, e.loc).errors);
    if resolved.Fail? {
      return Fail(resolved.failure);
    }
    WrapFlagsMembers(wraps, resolved.value.arguments, arguments);
    r := Ok(resolved.value.returnType);
  }

  /** `this.arguments.map { Argument(it, it.type()) }`: the explicit arguments
      typed in order. */
  method TypeOfArgs(ctx: Context, es: seq<Expr>) returns (r: Outcome<seq<Argument>>)
    requires ctx.Valid() && |ctx.typingScope.stack| > 0
    modifies ctx`typeErrors, ctx`resolvedTypes, ctx`resolvedCalls, ctx`resolvedArguments, ctx`iioTypes,
             ctx`constructedTypes, ctx.scope, ctx.typingScope
    ensures ctx.Valid()
    ensures Follows(ctx, TypedArgs(es, old(ctx.TypingEnv())), r)
    ensures r.Ok? ==> ScopesKept(ctx) && ctx.TypingEnv() == old(ctx.TypingEnv())
    decreases ExprsSize(es), 3
  {
    ghost var env := ctx.TypingEnv();
    var typed: seq<Argument> := [];
    var i := 0;
    assert es[..0] == [];
    while i < |es|
      invariant 0 <= i <= |es|
      invariant ctx.Valid() && |ctx.typingScope.stack| > 0
      invariant TypedArgs(es[..i], env).result == Ok(typed)
      invariant ctx.typeErrors == old(ctx.typeErrors) + TypedArgs(es[..i], env).errors
      invariant ScopesKept(ctx) && ctx.TypingEnv() == env
    {
      ghost var before, t := TypedArgs(es[..i], env), Typed(es[i], env);
      ExprsSizeAt(es, i);
      TypedArgsStep(es, i, env, before, t);
      ghost var start := ctx.typingScope.layers;
      var argType := TypeOf(ctx, es[i]);
      Appended(old(ctx.typeErrors), before.errors, t.errors);
      if argType.Fail? {
        TypedArgsStops(es, i + 1, env);
        return Fail(argType.failure);
      }
      ExtendsTransitive(old(ctx.typingScope.layers), start, ctx.typingScope.layers);
      typed := typed + [Argument(es[i], argType.value)];
      i := i + 1;
    }
    assert es[..i] == es;
    r := Ok(typed);
  }

  /** The variant a call resolves to. With one variant, each of its parameters
      in order is checked against the argument at its position (too few
      arguments throw); with several, `getVariant` picks the unique match. The
      node's state is then populated. */
  method ResolveCall(ctx: Context, node: nat, functionType: Type, arguments: seq<Argument>, loc: Loc)
    returns (r: Outcome<Function>)
    requires ctx.Valid() && functionType.OverloadedFunction?
    modifies ctx`typeErrors, ctx`resolvedCalls, ctx`resolvedArguments, ctx`iioTypes
    ensures Follows(ctx, Resolve(ctx.TypingEnv(), functionType, arguments, loc), r)
    ensures r.Ok? ==> ctx.resolvedCalls == old(ctx.resolvedCalls)[node := r.value]
                      && ctx.resolvedArguments == old(ctx.resolvedArguments)[node := ArgValues(arguments)]
    ensures r.Ok? ==> |arguments| <= |r.value.arguments|
                      && ctx.iioTypes == old(ctx.iioTypes)[node := WrapFlags(WrapsOf(old(ctx.iioTypes), node), r.value.arguments, arguments)]
  {
    var view := TypingView(ctx.TypingEnv());
    if |functionType.functions| == 1 {
      var f := functionType.functions[0];
      var checked := CheckParams(ctx, f.arguments, arguments, loc);
      if checked.Fail? {
        return Fail(checked.failure);
      }
      r := PopulateContext(ctx, node, f, arguments);
    } else {
      var variant := GetVariant(functionType.name, functionType.functions, ArgTypes(arguments), view);
      if variant.Fail? {
        return variant;
      }
      r := PopulateContext(ctx, node, variant.value, arguments);
    }
  }

  /** The single-variant checks of `FunctionCall.type()`: each parameter in order
      is checked against the argument at its position; running out of arguments
      throws. */
  method CheckParams(ctx: Context, params: seq<Parameter>, arguments: seq<Argument>, loc: Loc) returns (r: Outcome<()>)
    requires ctx.Valid()
    modifies ctx`typeErrors
    ensures Follows(ctx, ParamChecks(params, arguments, TypingView(ctx.TypingEnv()), loc), r)
  {
    var view := TypingView(ctx.TypingEnv());
    var i := 0;
    assert params[..0] == [];
    while i < |params|
      invariant 0 <= i <= |params|
      invariant ParamChecks(params[..i], arguments, view, loc).result.Ok?
      invariant ctx.typeErrors == old(ctx.typeErrors) + ParamChecks(params[..i], arguments, view, loc).errors
    {
      ghost var before := ParamChecks(params[..i], arguments, view, loc);
      ParamChecksStep(params, i, arguments, view, loc, before);
      if i >= |arguments| {
        ParamChecksStops(params, i + 1, arguments, view, loc);
        return Fail(IndexOutOfBounds);
      }
      var checked := ctx.CheckType(params[i].paramType, arguments[i].argType, loc);
      if checked.Fail? {
        ParamChecksStops(params, i + 1, arguments, view, loc);
        return Fail(checked.failure);
      }
      i := i + 1;
    }
    assert params[..i] == params;
    r := Ok(());
  }

  /** `populateContext`: each argument passed to an interface parameter of
      another type is recorded for wrapping; an argument beyond the variant's
      parameters throws, after the earlier ones were recorded. Then the variant
      and the argument expressions are stored on the node. */
  method PopulateContext(ctx: Context, node: nat, f: Function, arguments: seq<Argument>) returns (r: Outcome<Function>)
    modifies ctx`resolvedCalls, ctx`resolvedArguments, ctx`iioTypes
    ensures r == if |arguments| > |f.arguments| then Fail(IndexOutOfBounds) else Ok(f)
    ensures var n := if |arguments| > |f.arguments| then |f.arguments| else |arguments|;
            ctx.iioTypes == old(ctx.iioTypes)[node := WrapFlags(WrapsOf(old(ctx.iioTypes), node), f.arguments, arguments[..n])]
    ensures r.Ok? ==> ctx.resolvedCalls == old(ctx.resolvedCalls)[node := f]
                      && ctx.resolvedArguments == old(ctx.resolvedArguments)[node := ArgValues(arguments)]
    ensures r.Ok? ==> ctx.iioTypes == old(ctx.iioTypes)[node := WrapFlags(WrapsOf(old(ctx.iioTypes), node), f.arguments, arguments)]
    ensures r.Fail? ==> ctx.resolvedCalls == old(ctx.resolvedCalls) && ctx.resolvedArguments == old(ctx.resolvedArguments)
  {
    var before := WrapsOf(ctx.iioTypes, node);
    ctx.iioTypes := ctx.iioTypes[node := before];
    var params := f.arguments;
    var i := 0;
    assert arguments[..0] == [];
    while i < |arguments|
      invariant 0 <= i <= |arguments| && i <= |params|
      invariant ctx.iioTypes == old(ctx.iioTypes)[node := WrapFlags(before, params, arguments[..i])]
      invariant ctx.resolvedCalls == old(ctx.resolvedCalls) && ctx.resolvedArguments == old(ctx.resolvedArguments)
    {
      if i >= |params| {
        return Fail(IndexOutOfBounds);
      }
      WrapFlagsStep(before, params, arguments[..i + 1], i);
      assert arguments[..i + 1][..i] == arguments[..i];
      var declared := params[i].paramType;
      if declared.InterfaceType? && declared != arguments[i].argType {
        ctx.iioTypes := ctx.iioTypes[node := ctx.iioTypes[node][arguments[i].value := declared]];
      }
      i := i + 1;
    }
    assert arguments[..i] == arguments;
    assert arguments[..|arguments|] == arguments;
    ctx.resolvedCalls := ctx.resolvedCalls[node := f];
    ctx.resolvedArguments := ctx.resolvedArguments[node := ArgValues(arguments)];
    r := Ok(f);
  }

  /** `ConstructorCall.type()`. An unknown type name is caught: `UndeclaredType`
      is added and an empty record of that name given, and nothing is stored on
      the node. A binding that is not a record fails the cast. Otherwise the
      record is stored on the node, each declared field the call leaves
      unassigned is reported in declaration order, and each assignment in order
      is reported as undeclared or has its value typed and checked. */
  method TypeOfConstructorCall(ctx: Context, e: Expr) returns (r: Outcome<Type>)
    requires e.ConstructorCall? && ctx.Valid() && |ctx.typingScope.stack| > 0
    modifies ctx`typeErrors, ctx`resolvedTypes, ctx`resolvedCalls, ctx`resolvedArguments, ctx`iioTypes,
             ctx`constructedTypes, ctx.scope, ctx.typingScope
    ensures ctx.Valid()
    ensures Follows(ctx, Typed(e, old(ctx.TypingEnv())), r)
    ensures e.typeName !in old(ctx.TypingEnv()) ==>
              ctx.resolvedTypes == old(ctx.resolvedTypes) && ctx.resolvedCalls == old(ctx.resolvedCalls)
              && ctx.resolvedArguments == old(ctx.resolvedArguments) && ctx.iioTypes == old(ctx.iioTypes)
              && ctx.constructedTypes == old(ctx.constructedTypes)
    ensures r.Ok? ==> ScopesKept(ctx) && ctx.TypingEnv() == old(ctx.TypingEnv())
    decreases ExprSize(e), 0
  {
    ghost var env, errors := ctx.TypingEnv(), ctx.typeErrors;
    TypedConstructorCall(e, env, Constructed(e, env));
    var bound := ctx.typingScope.Get(e.typeName);
    if bound.Fail? {
      ctx.typeErrors := ctx.typeErrors + [UndeclaredType(e.typeName, e.loc)];
      return Ok(DataType(e.typeName, []));
    }
    if !bound.value.DataType? {
      return Fail(CastFailure);
    }
    var dataType := bound.value;
    ctx.constructedTypes := ctx.constructedTypes[e.node := dataType];
    ReportUninitialized(ctx, dataType, e.assignments, e.loc);
    var checked := CheckAssignments(ctx, dataType, e.assignments, e.loc);
    Appended(errors, UninitializedFields(dataType, dataType.fields, e.assignments, e.loc),
             AssignmentChecks(dataType, e.assignments, env, e.loc).errors);
    if checked.Fail? {
      return Fail(checked.failure);
    }
    r := Ok(dataType);
  }

  /** The declared fields of a record the call leaves unassigned, each
      reported as an `UninitializedField`, in declaration order. */
  method ReportUninitialized(ctx: Context, dataType: Type, assignments: seq<FieldAssignment>, loc: Loc)
    requires dataType.DataType?
    modifies ctx`typeErrors
    ensures ctx.typeErrors == old(ctx.typeErrors) + UninitializedFields(dataType, dataType.fields, assignments, loc)
  {
    var fields := dataType.fields;
    var i := 0;
    assert fields[..0] == [];
    while i < |fields|
      invariant 0 <= i <= |fields|
      invariant ctx.typeErrors == old(ctx.typeErrors) + UninitializedFields(dataType, fields[..i], assignments, loc)
    {
      UninitializedFieldsStep(dataType, fields, i, assignments, loc);
      if !Assigned(assignments, fields[i].name) {
        ctx.typeErrors := ctx.typeErrors + [UninitializedField(fields[i].name, dataType, loc)];
      }
      i := i + 1;
    }
    assert fields[..i] == fields;
  }

  /** The field assignments of a constructor call in order: one naming no
      declared field adds `UndeclaredField`; otherwise its value is typed and
      checked against the field's declared type. */
  method CheckAssignments(ctx: Context, dataType: Type, assignments: seq<FieldAssignment>, loc: Loc) returns (r: Outcome<()>)
    requires dataType.DataType? && ctx.Valid() && |ctx.typingScope.stack| > 0
    modifies ctx`typeErrors, ctx`resolvedTypes, ctx`resolvedCalls, ctx`resolvedArguments, ctx`iioTypes,
             ctx`constructedTypes, ctx.scope, ctx.typingScope
    ensures ctx.Valid()
    ensures Follows(ctx, AssignmentChecks(dataType, assignments, old(ctx.TypingEnv()), loc), r)
    ensures r.Ok? ==> ScopesKept(ctx) && ctx.TypingEnv() == old(ctx.TypingEnv())
    decreases AssignmentsSize(assignments), 4
  {
    ghost var env := ctx.TypingEnv();
    var j := 0;
    assert assignments[..0] == [];
    while j < |assignments|
      invariant 0 <= j <= |assignments|
      invariant ctx.Valid() && |ctx.typingScope.stack| > 0
      invariant AssignmentChecks(dataType, assignments[..j], env, loc).result.Ok?
      invariant ctx.typeErrors == old(ctx.typeErrors) + AssignmentChecks(dataType, assignments[..j], env, loc).errors
      invariant ScopesKept(ctx) && ctx.TypingEnv() == env
    {
      ghost var start := ctx.typingScope.layers;
      var checked := CheckAssignment(ctx, dataType, assignments, j, env, old(ctx.typeErrors), loc);
      if checked.Fail? {
        AssignmentChecksStops(dataType, assignments, j + 1, env, loc);
        return checked;
      }
      ExtendsTransitive(old(ctx.typingScope.layers), start, ctx.typingScope.layers);
      j := j + 1;
    }
    assert assignments[..j] == assignments;
    r := Ok(());
  }

  /** The assignment at `j`, after those before it passed: the rule for the
      assignments up to and including it, given the diagnostics so far. */
  method CheckAssignment(ctx: Context, dataType: Type, assignments: seq<FieldAssignment>, j: nat,
                         ghost env: map<string, Type>, ghost base: seq<TypeError>, loc: Loc) returns (r: Outcome<()>)
    requires dataType.DataType? && j < |assignments| && ctx.Valid() && |ctx.typingScope.stack| > 0
    requires ctx.TypingEnv() == env && AssignmentChecks(dataType, assignments[..j], env, loc).result.Ok?
    requires ctx.typeErrors == base + AssignmentChecks(dataType, assignments[..j], env, loc).errors
    modifies ctx`typeErrors, ctx`resolvedTypes, ctx`resolvedCalls, ctx`resolvedArguments, ctx`iioTypes,
             ctx`constructedTypes, ctx.scope, ctx.typingScope
    ensures ctx.Valid()
    ensures ctx.typeErrors == base + AssignmentChecks(dataType, assignments[..j + 1], env, loc).errors
    ensures r.Fail? <==> AssignmentChecks(dataType, assignments[..j + 1], env, loc).result.Fail?
    ensures r.Fail? ==> r == AssignmentChecks(dataType, assignments[..j + 1], env, loc).result
    ensures r.Ok? ==> ScopesKept(ctx) && ctx.TypingEnv() == env
    decreases AssignmentsSize(assignments), 3
  {
    ghost var before := AssignmentChecks(dataType, assignments[..j], env, loc);
    AssignmentsSizeAt(assignments, j);
    AssignmentChecksStep(dataType, assignments, j, env, loc, before);
    var declared := FieldNamed(dataType.fields, assignments[j].field);
    if declared.None? {
      ctx.typeErrors := ctx.typeErrors + [UndeclaredField(assignments[j].field, dataType, loc)];
      Appended(base, before.errors, [UndeclaredField(assignments[j].field, dataType, loc)]);
      return Ok(());
    }
    ghost var t := Typed(assignments[j].value, env);
    var value := TypeOf(ctx, assignments[j].value);
    Appended(base, before.errors, t.errors);
    if value.Fail? {
      return Fail(value.failure);
    }
    r := ctx.CheckType(declared.value, value.value, loc);
    if r.Ok? {
      AppendedInOrder(base, before.errors, t.errors, Incompatibility(declared.value, value.value, TypingView(env), loc).value);
    }
  }

  // ------------------------------------------------------------- statements

  /** `Statement.typeCheck()`. */
  method TypeCheck(ctx: Context, s: Stmt) returns (r: Outcome<()>)
    requires ctx.Valid() && |ctx.typingScope.stack| > 0
    modifies ctx`typeErrors, ctx`resolvedTypes, ctx`resolvedCalls, ctx`resolvedArguments, ctx`iioTypes,
             ctx`constructedTypes, ctx.scope, ctx.typingScope
    ensures ctx.Valid()
    ensures r == Done(Checked(s, old(ctx.TypingEnv())).result)
    ensures ctx.typeErrors == old(ctx.typeErrors) + Checked(s, old(ctx.TypingEnv())).errors
    ensures r.Ok? ==> TopWritten(ctx) && ctx.TypingEnv() == Checked(s, old(ctx.TypingEnv())).result.value
    decreases StmtSize(s), 1
  {
    match s
    case ExpressionStatement(_) => r := TypeCheckExpression(ctx, s);
    case VariableDeclaration(_, _, _, _) => r := TypeCheckDeclaration(ctx, s);
    case VariableAssignment(_, _, _) => r := TypeCheckAssignment(ctx, s);
    case ForLoop(_, _, _, _) => r := TypeCheckFor(ctx, s);
    case WhileLoop(_, _) => r := TypeCheckWhile(ctx, s);
  }

  /** `statements.forEach(Statement::typeCheck)`. */
  method TypeCheckAll(ctx: Context, ss: seq<Stmt>) returns (r: Outcome<()>)
    requires ctx.Valid() && |ctx.typingScope.stack| > 0
    modifies ctx`typeErrors, ctx`resolvedTypes, ctx`resolvedCalls, ctx`resolvedArguments, ctx`iioTypes,
             ctx`constructedTypes, ctx.scope, ctx.typingScope
    ensures ctx.Valid()
    ensures r == Done(CheckedAll(ss, old(ctx.TypingEnv())).result)
    ensures ctx.typeErrors == old(ctx.typeErrors) + CheckedAll(ss, old(ctx.TypingEnv())).errors
    ensures r.Ok? ==> TopWritten(ctx) && ctx.TypingEnv() == CheckedAll(ss, old(ctx.TypingEnv())).result.value
    decreases StmtsSize(ss), 2
  {
    ghost var env := ctx.TypingEnv();
    var i := 0;
    assert ss[..0] == [];
    while i < |ss|
      invariant 0 <= i <= |ss|
      invariant ctx.Valid() && |ctx.typingScope.stack| > 0
      invariant CheckedAll(ss[..i], env).result.Ok?
      invariant ctx.typeErrors == old(ctx.typeErrors) + CheckedAll(ss[..i], env).errors
      invariant TopWritten(ctx) && ctx.TypingEnv() == CheckedAll(ss[..i], env).result.value
    {
      ghost var before := CheckedAll(ss[..i], env);
      ghost var c := Checked(ss[i], before.result.value);
      StmtsSizeAt(ss, i);
      CheckedAllStep(ss, i, env, before, c);
      ghost var start := ctx.typingScope.layers;
      var done := TypeCheck(ctx, ss[i]);
      Appended(old(ctx.typeErrors), before.errors, c.errors);
      if done.Fail? {
        CheckedAllStops(ss, i + 1, env);
        return done;
      }
      ExtendsAboveTransitive(old(ctx.typingScope.layers), start, ctx.typingScope.layers, ctx.typingScope.stack);
      i := i + 1;
    }
    assert ss[..i] == ss;
    r := Ok(());
  }

  /** `ExpressionStatement.typeCheck()`: the type is computed and dropped. */
  method TypeCheckExpression(ctx: Context, s: Stmt) returns (r: Outcome<()>)
    requires s.ExpressionStatement? && ctx.Valid() && |ctx.typingScope.stack| > 0
    modifies ctx`typeErrors, ctx`resolvedTypes, ctx`resolvedCalls, ctx`resolvedArguments, ctx`iioTypes,
             ctx`constructedTypes, ctx.scope, ctx.typingScope
    ensures ctx.Valid()
    ensures r == Done(Checked(s, old(ctx.TypingEnv())).result)
    ensures ctx.typeErrors == old(ctx.typeErrors) + Checked(s, old(ctx.TypingEnv())).errors
    ensures r.Ok? ==> TopWritten(ctx) && ctx.TypingEnv() == Checked(s, old(ctx.TypingEnv())).result.value
    decreases StmtSize(s), 0
  {
    ghost var env := ctx.TypingEnv();
    var t := TypeOf(ctx, s.expression);
    assert Typed(s.expression, env).errors + [] == Typed(s.expression, env).errors;
    r := Done(t);
  }

  /** `VariableDeclaration.typeCheck()`. An annotation naming no type is caught:
      `UndeclaredType` is added, the name is bound to `Nothing`, and the
      initializer is skipped. Otherwise the initializer is typed, the name bound
      to the declared type or else to the initializer's (`!!` throws when there is
      neither), and only then, with both present, are the two compared. */
  method TypeCheckDeclaration(ctx: Context, s: Stmt) returns (r: Outcome<()>)
    requires s.VariableDeclaration? && ctx.Valid() && |ctx.typingScope.stack| > 0
    modifies ctx`typeErrors, ctx`resolvedTypes, ctx`resolvedCalls, ctx`resolvedArguments, ctx`iioTypes,
             ctx`constructedTypes, ctx.scope, ctx.typingScope
    ensures ctx.Valid()
    ensures r == Done(Checked(s, old(ctx.TypingEnv())).result)
    ensures ctx.typeErrors == old(ctx.typeErrors) + Checked(s, old(ctx.TypingEnv())).errors
    ensures r.Ok? ==> TopWritten(ctx) && ctx.TypingEnv() == Checked(s, old(ctx.TypingEnv())).result.value
    decreases StmtSize(s), 0
  {
    ghost var env := ctx.TypingEnv();
    ghost var init := if s.initializer.Some? then Some(Typed(s.initializer.value, env)) else None;
    assert InitializerSize(s.initializer) == if s.initializer.Some? then ExprSize(s.initializer.value) else 0;
    assert Checked(s, env) == DeclarationRule(s, env) == DeclarationWith(s, env, init);
    var declared: Option<Type> := None;
    if s.typeAnnotation.Some? {
      var annotated := ToType(ctx.TypingEnv(), s.typeAnnotation.value);
      if annotated.Fail? {
        ctx.typeErrors := ctx.typeErrors + [UndeclaredType(s.typeAnnotation.value.name, s.loc)];
        r := DefineTop(ctx, s.name, NothingType);
        return;
      }
      declared := Some(annotated.value);
    }
    if s.initializer.None? {
      if declared.None? {
        return Fail(NullValue);
      }
      r := DefineTop(ctx, s.name, declared.value);
      return;
    }
    r := DeclareInitialized(ctx, s.name, s.loc, declared, s.initializer.value);
  }

  /** `typingScope.define(name, t)` on a non-empty stack: the top typing layer
      binds the name and nothing else changes. */
  method DefineTop(ctx: Context, name: string, t: Type) returns (r: Outcome<()>)
    requires ctx.Valid() && |ctx.typingScope.stack| > 0
    modifies ctx.typingScope
    ensures ctx.Valid() && r == Ok(())
    ensures TopWritten(ctx) && ctx.TypingEnv() == old(ctx.TypingEnv())[name := t]
  {
    r := ctx.typingScope.Define(name, t);
  }

  /** A declaration with an initializer: the initializer is typed, the name
      bound to the annotated type if there is one and else to the initializer's
      type, and then the two types are compared. */
  method DeclareInitialized(ctx: Context, name: string, loc: Loc, declared: Option<Type>, value: Expr) returns (r: Outcome<()>)
    requires ctx.Valid() && |ctx.typingScope.stack| > 0
    modifies ctx`typeErrors, ctx`resolvedTypes, ctx`resolvedCalls, ctx`resolvedArguments, ctx`iioTypes,
             ctx`constructedTypes, ctx.scope, ctx.typingScope
    ensures ctx.Valid()
    ensures var rule := InitializedRule(name, loc, old(ctx.TypingEnv()), declared, Typed(value, old(ctx.TypingEnv())));
      r == Done(rule.result) && ctx.typeErrors == old(ctx.typeErrors) + rule.errors
      && (r.Ok? ==> TopWritten(ctx) && ctx.TypingEnv() == rule.result.value)
    decreases ExprSize(value), 3
  {
    ghost var env, errors := ctx.TypingEnv(), ctx.typeErrors;
    ghost var init := Typed(value, env);
    var t := TypeOf(ctx, value);
    if t.Fail? {
      return Fail(t.failure);
    }
    ghost var typed := ctx.typingScope.layers;
    r := BindInitialized(ctx, name, loc, declared, t.value);
    ghost var bind := InitializedRule(name, loc, env, declared, Typing(Ok(t.value), []));
    Appended(errors, init.errors, bind.errors);
    if r.Ok? {
      ExtendsIsAbove(old(ctx.typingScope.layers), typed, ctx.typingScope.stack);
      ExtendsAboveTransitive(old(ctx.typingScope.layers), typed, ctx.typingScope.layers, ctx.typingScope.stack);
    }
  }

  /** The rest of a declaration with an initializer once its type is known: the
      name is bound, then the annotated type, if any, compared with the
      initializer's. */
  method BindInitialized(ctx: Context, name: string, loc: Loc, declared: Option<Type>, t: Type) returns (r: Outcome<()>)
    requires ctx.Valid() && |ctx.typingScope.stack| > 0
    modifies ctx`typeErrors, ctx.typingScope
    ensures ctx.Valid()
    ensures var rule := InitializedRule(name, loc, old(ctx.TypingEnv()), declared, Typing(Ok(t), []));
      r == Done(rule.result) && ctx.typeErrors == old(ctx.typeErrors) + rule.errors
      && (r.Ok? ==> TopWritten(ctx) && ctx.TypingEnv() == rule.result.value)
  {
    var bound := if declared.Some? then declared.value else t;
    r := DefineTop(ctx, name, bound);
    if declared.Some? {
      var checked := ctx.CheckType(declared.value, t, loc);
      if checked.Fail? {
        return Fail(checked.failure);
      }
    }
  }

  /** `VariableAssignment.typeCheck()`: the name's type is looked up without a
      guard, the value typed, and the two compared; no binding changes. */
  method TypeCheckAssignment(ctx: Context, s: Stmt) returns (r: Outcome<()>)
    requires s.VariableAssignment? && ctx.Valid() && |ctx.typingScope.stack| > 0
    modifies ctx`typeErrors, ctx`resolvedTypes, ctx`resolvedCalls, ctx`resolvedArguments, ctx`iioTypes,
             ctx`constructedTypes, ctx.scope, ctx.typingScope
    ensures ctx.Valid()
    ensures r == Done(Checked(s, old(ctx.TypingEnv())).result)
    ensures ctx.typeErrors == old(ctx.typeErrors) + Checked(s, old(ctx.TypingEnv())).errors
    ensures r.Ok? ==> TopWritten(ctx) && ctx.TypingEnv() == Checked(s, old(ctx.TypingEnv())).result.value
    decreases StmtSize(s), 0
  {
    ghost var env, errors := ctx.TypingEnv(), ctx.typeErrors;
    ghost var value := Typed(s.value, env);
    var declared := ctx.typingScope.Get(s.name);
    if declared.Fail? {
      assert Checked(s, env) == AssignmentRule(s, env);
      return Fail(declared.failure);
    }
    var t := TypeOf(ctx, s.value);
    if t.Fail? {
      assert Checked(s, env) == AssignmentRule(s, env) == AssignmentWith(s, env, value);
      return Fail(t.failure);
    }
    AssignmentCompared(s, env);
    ghost var inc := Incompatibility(env[s.name], value.result.value, TypingView(env), s.loc);
    assert declared.value == env[s.name] && t.value == value.result.value && ctx.TypingEnv() == env;
    var checked := ctx.CheckType(declared.value, t.value, s.loc);
    if checked.Fail? {
      return Fail(checked.failure);
    }
    Appended(errors, value.errors, inc.value);
    ExtendsIsAbove(old(ctx.typingScope.layers), ctx.typingScope.layers, ctx.typingScope.stack);
    r := Ok(());
  }

  /** `ForLoop.typeCheck()`: a typing layer is pushed, the iterator bound in it as
      `Integer`, the body checked, and the layer popped. */
  method TypeCheckFor(ctx: Context, s: Stmt) returns (r: Outcome<()>)
    requires s.ForLoop? && ctx.Valid() && |ctx.typingScope.stack| > 0
    modifies ctx`typeErrors, ctx`resolvedTypes, ctx`resolvedCalls, ctx`resolvedArguments, ctx`iioTypes,
             ctx`constructedTypes, ctx.scope, ctx.typingScope
    ensures ctx.Valid()
    ensures r == Done(Checked(s, old(ctx.TypingEnv())).result)
    ensures ctx.typeErrors == old(ctx.typeErrors) + Checked(s, old(ctx.TypingEnv())).errors
    ensures r.Ok? ==> TopWritten(ctx) && ctx.TypingEnv() == Checked(s, old(ctx.TypingEnv())).result.value
    decreases StmtSize(s), 0
  {
    ghost var env, errors := ctx.TypingEnv(), ctx.typeErrors;
    ghost var layers, stack := ctx.typingScope.layers, ctx.typingScope.stack;
    ghost var c := CheckedAll(s.statements, env[s.iteratorName := IntegerType]);
    assert Checked(s, env) == Then(c, Typing(Ok(env), []));
    assert env == Visible(layers, TopOf(stack));
    ctx.typingScope.Enter();
    ghost var pushed := Layer(map[], Some(stack[|stack| - 1]));
    var defined := ctx.typingScope.Define(s.iteratorName, IntegerType);
    assert ctx.TypingEnv() == env[s.iteratorName := IntegerType];
    ghost var inner := ctx.typingScope.stack;
    assert |inner| > 0 && inner[|inner| - 1] == |layers|;
    assert ExtendsAbove(layers + [pushed], ctx.typingScope.layers, inner);
    var body := TypeCheckAll(ctx, s.statements);
    if body.Fail? {
      return body;
    }
    PushedLayerAbsorbs(layers, pushed, ctx.typingScope.layers, inner);
    var left := ctx.typingScope.Leave();
    SameStackSameEnv(layers, ctx.typingScope.layers, stack);
    assert ctx.typingScope.Top() == TopOf(stack);
    assert c.errors + [] == c.errors;
    r := Ok(());
  }

  /** `WhileLoop.typeCheck()`: it pushes and pops a RUNTIME layer around the
      condition and the body, so the body's `let`s bind in the current typing
      layer. */
  method TypeCheckWhile(ctx: Context, s: Stmt) returns (r: Outcome<()>)
    requires s.WhileLoop? && ctx.Valid() && |ctx.typingScope.stack| > 0
    modifies ctx`typeErrors, ctx`resolvedTypes, ctx`resolvedCalls, ctx`resolvedArguments, ctx`iioTypes,
             ctx`constructedTypes, ctx.scope, ctx.typingScope
    ensures ctx.Valid()
    ensures r == Done(Checked(s, old(ctx.TypingEnv())).result)
    ensures ctx.typeErrors == old(ctx.typeErrors) + Checked(s, old(ctx.TypingEnv())).errors
    ensures r.Ok? ==> TopWritten(ctx) && ctx.TypingEnv() == Checked(s, old(ctx.TypingEnv())).result.value
    decreases StmtSize(s), 0
  {
    ghost var env := ctx.TypingEnv();
    assert Checked(s, env) == Then(Typed(s.condition, env), CheckedAll(s.statements, env));
    ctx.scope.Enter();
    var condition := TypeOf(ctx, s.condition);
    if condition.Fail? {
      return Fail(condition.failure);
    }
    ExtendsIsAbove(old(ctx.typingScope.layers), ctx.typingScope.layers, ctx.typingScope.stack);
    ghost var first := ctx.typingScope.layers;
    var body := TypeCheckAll(ctx, s.statements);
    if body.Fail? {
      return body;
    }
    ExtendsAboveTransitive(old(ctx.typingScope.layers), first, ctx.typingScope.layers, ctx.typingScope.stack);
    var left := ctx.scope.Leave();
    r := Ok(());
  }
}
