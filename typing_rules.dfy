/** The typing rules: what `type()` of each expression and `typeCheck()` of each
    statement compute. Each rule is a pure function of the bindings visible when
    the node is checked; it gives the type (or, for a statement, the bindings
    visible afterwards), or the exception checking stops with, together with the
    diagnostics added on the way. The checker's methods are proved to follow
    these rules. */
module TypingRules {
  import opened Wrappers
  import opened Syntax
  import opened BuiltIns
  import opened Types
  import opened Diagnostics
  import opened Overloads
  import opened Annotations
  import opened Values

  /** An outcome together with the diagnostics appended before it was reached;
      diagnostics added before an exception stay added. */
  datatype Typing<T> = Typing(result: Outcome<T>, errors: seq<TypeError>)

  /** Run `first`, then `next` unless the first failed; the result is the second's. */
  function Then<T, U>(first: Typing<T>, next: Typing<U>): Typing<U>
  {
    if first.result.Fail? then Typing(Fail(first.result.failure), first.errors)
    else Typing(next.result, first.errors + next.errors)
  }

  // ------------------------------------------------------------- node rules

  /** `IdExpression.type`: the bound type; an unbound name adds one
      `UnknownIdentifier` and types as `Nothing`. */
  function IdType(env: map<string, Type>, id: string, loc: Loc): (r: Typing<Type>)
    ensures r.result.Ok?
    ensures id in env <==> r.errors == []
    ensures id in env ==> r.result.value == env[id]
    ensures id !in env ==> r == Typing(Ok(NothingType), [UnknownIdentifier(id, loc)])
  {
    if id in env then Typing(Ok(env[id]), []) else Typing(Ok(NothingType), [UnknownIdentifier(id, loc)])
  }

  /** `fields[id]` on a record's fields: the type of the first field so named. */
  function FieldNamed(fields: seq<Field>, id: string): (r: Option<Type>)
    ensures r.None? <==> forall k :: 0 <= k < |fields| ==> fields[k].name != id
    ensures r.Some? ==> exists k :: 0 <= k < |fields| && fields[k] == Field(id, r.value)
                                    && forall j :: 0 <= j < k ==> fields[j].name != id
  {
    if fields == [] then None
    else if fields[0].name == id then Some(fields[0].fieldType)
    else
      var rest := FieldNamed(fields[1..], id);
      assert forall k :: 1 <= k < |fields| ==> fields[k] == fields[1..][k - 1];
      FieldNamedShift(fields, id, rest);
      rest
  }

  lemma FieldNamedShift(fields: seq<Field>, id: string, rest: Option<Type>)
    requires fields != [] && fields[0].name != id
    requires rest.Some? ==> exists k :: 0 <= k < |fields[1..]| && fields[1..][k] == Field(id, rest.value)
                                        && forall j :: 0 <= j < k ==> fields[1..][j].name != id
    ensures rest.Some? ==> exists k :: 0 <= k < |fields| && fields[k] == Field(id, rest.value)
                                       && forall j :: 0 <= j < k ==> fields[j].name != id
  {
    if rest.Some? {
      var k :| 0 <= k < |fields[1..]| && fields[1..][k] == Field(id, rest.value)
               && forall j :: 0 <= j < k ==> fields[1..][j].name != id;
      assert fields[k + 1] == Field(id, rest.value);
      assert forall j :: 1 <= j < k + 1 ==> fields[j] == fields[1..][j - 1];
    }
  }

  /** `DotCall.type` once the target is typed. The name of the target's type is
      looked up without a guard; a record type with the field gives the field's
      type. Otherwise the field name itself is looked up: a function name gives
      the function with the target as first argument, another binding is an
      `Error`, and no binding adds `UndeclaredField` and types as `Nothing`. */
  function DotCallType(env: map<string, Type>, target: Expr, targetType: Type, id: string, loc: Loc): Typing<Type>
  {
    if targetType.name !in env then Typing(Fail(UnknownName(targetType.name)), [])
    else
      var owner := env[targetType.name];
      if owner.DataType? && FieldNamed(owner.fields, id).Some? then Typing(Ok(FieldNamed(owner.fields, id).value), [])
      else if id !in env then Typing(Ok(NothingType), [UndeclaredField(id, targetType, loc)])
      else if env[id].OverloadedFunction? then Typing(Ok(PreAppliedFunction(id, Argument(target, targetType))), [])
      else Typing(Fail(NotAFunction(id)), [])
  }

  /** An operator node: both operands are typed, in order, and their types are
      dropped; the node has the operator's fixed type. */
  function Operands(left: Typing<Type>, right: Typing<Type>, fixed: Type): Typing<Type>
  {
    Then(left, Then(right, Typing(Ok(fixed), [])))
  }

  /** The two branches of an `if`, then the union of their types. */
  function Branches(ifTrue: Typing<Type>, ifFalse: Typing<Type>): Typing<Type>
  {
    if ifTrue.result.Fail? then ifTrue
    else if ifFalse.result.Fail? then Typing(ifFalse.result, ifTrue.errors + ifFalse.errors)
    else Typing(Ok(Union({ifTrue.result.value, ifFalse.result.value})), ifTrue.errors + ifFalse.errors)
  }

  /** The result types of the cases followed by the `else` type, then their union. */
  function Results(cases: Typing<set<Type>>, otherwise: Typing<Type>): Typing<Type>
  {
    if cases.result.Fail? then Typing(Fail(cases.result.failure), cases.errors)
    else if otherwise.result.Fail? then Typing(otherwise.result, cases.errors + otherwise.errors)
    else Typing(Ok(Union(cases.result.value + {otherwise.result.value})), cases.errors + otherwise.errors)
  }

  /** One more case of a match: its pattern is typed and dropped, its result's
      type joins the set. */
  function AddCase(before: Typing<set<Type>>, pattern: Typing<Type>, result: Typing<Type>): Typing<set<Type>>
  {
    if before.result.Fail? then before
    else if pattern.result.Fail? then Typing(Fail(pattern.result.failure), before.errors + pattern.errors)
    else if result.result.Fail? then Typing(Fail(result.result.failure), before.errors + pattern.errors + result.errors)
    else Typing(Ok(before.result.value + {result.result.value}), before.errors + pattern.errors + result.errors)
  }

  /** `checkType` as a value: no diagnostic when the declared type accepts the
      actual one, one `IncompatibleType` at `loc` when it does not. Deciding may
      fail, when an interface names something that is not a function. */
  function Incompatibility(declared: Type, actual: Type, view: FunctionScope, loc: Loc): (r: Outcome<seq<TypeError>>)
    ensures r.Ok? && r.value != [] ==> r.value == [IncompatibleType(declared, actual, loc)]
  {
    var assignable :- AssignableFrom(declared, actual, Some(view));
    Ok(if assignable then [] else [IncompatibleType(declared, actual, loc)])
  }

  /** What `checkType` decides, in terms of assignability. Kept apart from
      `Incompatibility` so that callers that only pass its diagnostics on do
      not reason about assignability. */
  lemma IncompatibilityDecides(declared: Type, actual: Type, view: FunctionScope, loc: Loc)
    ensures var r := Incompatibility(declared, actual, view, loc);
      (r.Fail? <==> AssignableFrom(declared, actual, Some(view)).Fail?)
      && (r == Ok([]) <==> AssignableFrom(declared, actual, Some(view)) == Ok(true))
      && (r.Ok? && r.value != [] <==> AssignableFrom(declared, actual, Some(view)) == Ok(false))
  {
  }

  /** Example: `enum Choice { 'A, Integer }` accepts `'A` and `5` but not `'B`. */
  lemma UnlistedSymbolIsIncompatible(view: FunctionScope, loc: Loc)
    ensures var choice := EnumType("Choice", {SymbolType("'A"), IntegerType});
      Incompatibility(choice, SymbolType("'A"), view, loc) == Ok([])
      && Incompatibility(choice, IntegerType, view, loc) == Ok([])
      && Incompatibility(choice, SymbolType("'B"), view, loc) == Ok([IncompatibleType(choice, SymbolType("'B"), loc)])
  {
    var members := {SymbolType("'A"), IntegerType};
    EnumAcceptsMember("Choice", members, SymbolType("'A"), Some(view));
    EnumAcceptsMember("Choice", members, IntegerType, Some(view));
    EnumAcceptsMember("Choice", members, SymbolType("'B"), Some(view));
  }

  /** The types of typed arguments, in order. */
  function ArgTypes(arguments: seq<Argument>): (types: seq<Type>)
    ensures |types| == |arguments| && forall i :: 0 <= i < |arguments| ==> types[i] == arguments[i].argType
  {
    seq(|arguments|, i requires 0 <= i < |arguments| => arguments[i].argType)
  }

  /** The expressions of typed arguments, in order. */
  function ArgValues(arguments: seq<Argument>): (values: seq<Expr>)
    ensures |values| == |arguments| && forall i :: 0 <= i < |arguments| ==> values[i] == arguments[i].value
  {
    seq(|arguments|, i requires 0 <= i < |arguments| => arguments[i].value)
  }

  /** What a call's target names: the function type, and the argument a dot call
      already chose. For a dot call the function name is looked up again,
      without a guard. */
  datatype Callee = Callee(functionType: Type, leading: seq<Argument>)

  function CallTarget(env: map<string, Type>, targetType: Type): (r: Outcome<Callee>)
    ensures targetType.PreAppliedFunction? && targetType.name !in env <==> r.Fail?
    ensures r.Fail? ==> r.failure == UnknownName(targetType.name)
    ensures r.Ok? && targetType.PreAppliedFunction? ==>
              r.value == Callee(env[targetType.name], [targetType.firstArgument])
    ensures !targetType.PreAppliedFunction? ==> r == Ok(Callee(targetType, []))
  {
    if targetType.PreAppliedFunction? then
      if targetType.name in env then Ok(Callee(env[targetType.name], [targetType.firstArgument]))
      else Fail(UnknownName(targetType.name))
    else Ok(Callee(targetType, []))
  }

  /** The single-variant checks: each parameter in order is checked against the
      argument at its position; running out of arguments throws, after the
      diagnostics of the earlier parameters. */
  function ParamChecks(params: seq<Parameter>, arguments: seq<Argument>, view: FunctionScope, loc: Loc): Typing<()>
  {
    if params == [] then Typing(Ok(()), [])
    else
      var last := |params| - 1;
      var before := ParamChecks(params[..last], arguments, view, loc);
      if before.result.Fail? then before
      else if last >= |arguments| then Typing(Fail(IndexOutOfBounds), before.errors)
      else
        match Incompatibility(params[last].paramType, arguments[last].argType, view, loc)
        case Fail(f) => Typing(Fail(f), before.errors)
        case Ok(errors) => Typing(Ok(()), before.errors + errors)
  }

  /** The variant a call resolves to: the only one, after checking its
      parameters, or the unique match among several. `populateContext` then
      throws when there are more arguments than the variant has parameters. */
  function Resolve(env: map<string, Type>, functionType: Type, arguments: seq<Argument>, loc: Loc): Typing<Function>
    requires functionType.OverloadedFunction?
  {
    var view := TypingView(env);
    if |functionType.functions| == 1 then
      var f := functionType.functions[0];
      var checks := ParamChecks(f.arguments, arguments, view, loc);
      if checks.result.Fail? then Typing(Fail(checks.result.failure), checks.errors)
      else if |arguments| > |f.arguments| then Typing(Fail(IndexOutOfBounds), checks.errors)
      else Typing(Ok(f), checks.errors)
    else
      match GetVariant(functionType.name, functionType.functions, ArgTypes(arguments), view)
      case Fail(failure) => Typing(Fail(failure), [])
      case Ok(f) => if |arguments| > |f.arguments| then Typing(Fail(IndexOutOfBounds), []) else Typing(Ok(f), [])
  }

  /** `populateContext`'s wrapping decisions for the arguments so far: an
      argument is wrapped as an interface-bound object when its parameter's type
      is an interface other than the argument's own type. */
  function WrapFlags(before: map<Expr, Type>, params: seq<Parameter>, arguments: seq<Argument>): map<Expr, Type>
    requires |arguments| <= |params|
  {
    if arguments == [] then before
    else
      var last := |arguments| - 1;
      var flags := WrapFlags(before, params, arguments[..last]);
      var declared := params[last].paramType;
      if declared.InterfaceType? && declared != arguments[last].argType then flags[arguments[last].value := declared]
      else flags
  }

  /** Argument `i` is passed to an interface parameter of another type. */
  predicate Wrapped(params: seq<Parameter>, arguments: seq<Argument>, i: int)
    requires 0 <= i < |arguments| <= |params|
  {
    params[i].paramType.InterfaceType? && params[i].paramType != arguments[i].argType
  }

  /** The field is assigned somewhere in a constructor call. */
  predicate Assigned(assignments: seq<FieldAssignment>, field: string)
  {
    exists i :: 0 <= i < |assignments| && assignments[i].field == field
  }

  /** One `UninitializedField` per declared field, in declaration order, that the
      call does not assign. */
  function UninitializedFields(dataType: Type, fields: seq<Field>, assignments: seq<FieldAssignment>, loc: Loc): seq<TypeError>
  {
    if fields == [] then []
    else
      var last := |fields| - 1;
      UninitializedFields(dataType, fields[..last], assignments, loc)
      + (if Assigned(assignments, fields[last].name) then [] else [UninitializedField(fields[last].name, dataType, loc)])
  }

  // ------------------------------------------------------------ sizes

  /** The size of the cases is that of all but the last plus the last. */
  lemma {:induction false} CasesSizeSplit(cases: seq<MatchCase>)
    requires cases != []
    ensures CasesSize(cases) == CasesSize(cases[..|cases| - 1]) + CaseSize(cases[|cases| - 1])
    ensures CaseSize(cases[|cases| - 1]) >= 2
    decreases |cases|
  {
    if |cases| > 1 {
      CasesSizeSplit(cases[1..]);
      assert cases[1..][..|cases| - 2] == cases[..|cases| - 1][1..];
    }
  }

  lemma {:induction false} ExprsSizeSplit(es: seq<Expr>)
    requires es != []
    ensures ExprsSize(es) == ExprsSize(es[..|es| - 1]) + ExprSize(es[|es| - 1])
    decreases |es|
  {
    if |es| > 1 {
      ExprsSizeSplit(es[1..]);
      assert es[1..][..|es| - 2] == es[..|es| - 1][1..];
    }
  }

  lemma {:induction false} AssignmentsSizeSplit(assignments: seq<FieldAssignment>)
    requires assignments != []
    ensures AssignmentsSize(assignments)
         == AssignmentsSize(assignments[..|assignments| - 1]) + AssignmentSize(assignments[|assignments| - 1])
    decreases |assignments|
  {
    if |assignments| > 1 {
      AssignmentsSizeSplit(assignments[1..]);
      assert assignments[1..][..|assignments| - 2] == assignments[..|assignments| - 1][1..];
    }
  }

  lemma {:induction false} StmtsSizeSplit(ss: seq<Stmt>)
    requires ss != []
    ensures StmtsSize(ss) == StmtsSize(ss[..|ss| - 1]) + StmtSize(ss[|ss| - 1])
    decreases |ss|
  {
    if |ss| > 1 {
      StmtsSizeSplit(ss[1..]);
      assert ss[1..][..|ss| - 2] == ss[..|ss| - 1][1..];
    }
  }

  /** `type()` of an expression against the bindings `env`: the rule of its
      outermost node applied to the typings of its parts. */
  function Typed(e: Expr, env: map<string, Type>): Typing<Type>
    decreases ExprSize(e), 2
  {
    TypedNode(e, env)
  }

  /** The rule of each kind of expression node. */
  function TypedNode(e: Expr, env: map<string, Type>): Typing<Type>
    decreases ExprSize(e), 1
  {
    match e
    case IntLiteral(_) => Typing(Ok(IntegerType), [])
    case BooleanLiteral(_) => Typing(Ok(BooleanType), [])
    case StringLiteral(_) => Typing(Ok(StringType), [])
    case SymbolLiteral(symbol) => Typing(Ok(SymbolType(symbol)), [])
    case IdExpression(id, loc) => IdType(env, id, loc)
    case BracketExpression(inner) => Typed(inner, env)
    case Negation(_) => Typing(Ok(BooleanType), [])
    case UnaryMinus(operand) => Then(Typed(operand, env), Typing(Ok(IntegerType), []))
    case Addition(_, left, right) =>
      var l := Typed(left, env);
      Then(l, Then(l, Then(Typed(right, env), Typing(l.result, []))))
    case Subtraction(left, right) => Operands(Typed(left, env), Typed(right, env), IntegerType)
    case Multiplication(left, right) => Operands(Typed(left, env), Typed(right, env), IntegerType)
    case Mod(left, right) => Operands(Typed(left, env), Typed(right, env), IntegerType)
    case LesserThan(left, right) => Operands(Typed(left, env), Typed(right, env), BooleanType)
    case LesserEqual(left, right) => Operands(Typed(left, env), Typed(right, env), BooleanType)
    case Equal(left, right) => Operands(Typed(left, env), Typed(right, env), BooleanType)
    case TypeCast(_, asType) => Typing(ToType(env, asType), [])
    case IfExpression(c, t, f) => Then(Typed(c, env), Branches(Typed(t, env), Typed(f, env)))
    case MatchExpression(v, cases, otherwise) =>
      Then(Typed(v, env), Results(TypedCases(cases, env), Typed(otherwise, env)))
    case ExpressionBlock(_, _) => BlockTyped(e, env)
    case DotCall(target, id, loc) =>
      var t := Typed(target, env);
      if t.result.Fail? then t else Then(t, DotCallType(env, target, t.result.value, id, loc))
    case FunctionCall(_, _, _, _) =>
      var call := CallOf(e, env);
      Typing(if call.result.Fail? then Fail(call.result.failure) else Ok(call.result.value.ResultType()), call.errors)
    case ConstructorCall(_, _, _, _) => Constructed(e, env)
  }

  /** The cases of a match typed in order: the set of their result types. */
  function TypedCases(cases: seq<MatchCase>, env: map<string, Type>): Typing<set<Type>>
    decreases CasesSize(cases), 2
  {
    if cases == [] then Typing(Ok({}), [])
    else
      var last := |cases| - 1;
      CasesSizeSplit(cases);
      AddCase(TypedCases(cases[..last], env), Typed(cases[last].pattern, env), Typed(cases[last].result, env))
  }

  /** The explicit arguments of a call typed in order. */
  function TypedArgs(es: seq<Expr>, env: map<string, Type>): Typing<seq<Argument>>
    decreases ExprsSize(es), 3
  {
    if es == [] then Typing(Ok([]), [])
    else
      var last := |es| - 1;
      ExprsSizeSplit(es);
      var before := TypedArgs(es[..last], env);
      if before.result.Fail? then before
      else
        var t := Typed(es[last], env);
        if t.result.Fail? then Typing(Fail(t.result.failure), before.errors + t.errors)
        else Typing(Ok(before.result.value + [Argument(es[last], t.result.value)]), before.errors + t.errors)
  }

  /** `ExpressionBlock.type`: the statements are checked in a layer of their
      own, so their `let`s are visible to the result expression only. */
  function BlockTyped(e: Expr, env: map<string, Type>): Typing<Type>
    requires e.ExpressionBlock?
    decreases ExprSize(e), 0
  {
    var checked := CheckedAll(e.statements, env);
    if checked.result.Fail? then Typing(Fail(checked.result.failure), checked.errors)
    else Then(checked, Typed(e.returnExpression, checked.result.value))
  }

  /** `typeCheck()` of a statement run with a typing layer on top of the stack:
      the bindings visible afterwards, or the exception it stops with, and the
      diagnostics it adds. A `let` binds in the top layer; a `for` binds its
      variable and checks its body in a layer it pushes and pops again; a `while`
      checks its body in the current layer. */
  function Checked(s: Stmt, env: map<string, Type>): Typing<map<string, Type>>
    decreases StmtSize(s), 1
  {
    match s
    case ExpressionStatement(e) => Then(Typed(e, env), Typing(Ok(env), []))
    case VariableDeclaration(_, _, _, _) => DeclarationRule(s, env)
    case VariableAssignment(_, _, _) => AssignmentRule(s, env)
    case ForLoop(iteratorName, _, _, body) =>
      Then(CheckedAll(body, env[iteratorName := IntegerType]), Typing(Ok(env), []))
    case WhileLoop(condition, body) =>
      Then(Typed(condition, env), CheckedAll(body, env))
  }

  /** `VariableDeclaration.typeCheck`. An
      annotation naming no type adds `UndeclaredType` and binds the name to
      `Nothing`, without typing the initializer. Otherwise the initializer is
      typed first, then the name is bound to the declared type or else to the
      initializer's, and only then are the two compared. With neither,
      `expressionType!!` throws. */
  function DeclarationRule(s: Stmt, env: map<string, Type>): Typing<map<string, Type>>
    requires s.VariableDeclaration?
    decreases StmtSize(s), 0
  {
    match s.initializer
    case None => DeclarationWith(s, env, None)
    case Some(value) =>
      assert InitializerSize(s.initializer) == ExprSize(value);
      DeclarationWith(s, env, Some(Typed(value, env)))
  }

  /** The declaration rule, given the typing of the initializer if there is one. */
  function DeclarationWith(s: Stmt, env: map<string, Type>, init: Option<Typing<Type>>): Typing<map<string, Type>>
    requires s.VariableDeclaration?
  {
    var annotation := s.typeAnnotation;
    if annotation.Some? && ToType(env, annotation.value).Fail? then
      Typing(Ok(env[s.name := NothingType]), [UndeclaredType(annotation.value.name, s.loc)])
    else
      var declared := if annotation.Some? then Some(ToType(env, annotation.value).value) else None;
      match init
      case None =>
        if declared.None? then Typing(Fail(NullValue), []) else Typing(Ok(env[s.name := declared.value]), [])
      case Some(t) => InitializedRule(s.name, s.loc, env, declared, t)
  }

  /** A declaration with an initializer, given the annotated type if there is
      one and the initializer's typing: the name is bound to the annotated
      type, else to the initializer's, and then the two are compared. */
  function InitializedRule(name: string, loc: Loc, env: map<string, Type>, declared: Option<Type>, t: Typing<Type>)
    : Typing<map<string, Type>>
  {
    if t.result.Fail? then Typing(Fail(t.result.failure), t.errors)
    else if declared.None? then Typing(Ok(env[name := t.result.value]), t.errors)
    else
      var bound := env[name := declared.value];
      match Incompatibility(declared.value, t.result.value, TypingView(bound), loc)
      case Fail(f) => Typing(Fail(f), t.errors)
      case Ok(errors) => Typing(Ok(bound), t.errors + errors)
  }

  /** `VariableAssignment.typeCheck`: the name is
      looked up without a guard, then the value is typed and compared with the
      name's type. The bindings do not change. */
  function AssignmentRule(s: Stmt, env: map<string, Type>): Typing<map<string, Type>>
    requires s.VariableAssignment?
    decreases StmtSize(s), 0
  {
    AssignmentWith(s, env, Typed(s.value, env))
  }

  /** An assignment to a bound name whose value types: its diagnostics and
      outcome, as the comparison of the two types decides them. */
  lemma AssignmentCompared(s: Stmt, env: map<string, Type>)
    requires s.VariableAssignment? && s.name in env && Typed(s.value, env).result.Ok?
    ensures var value := Typed(s.value, env);
      var inc := Incompatibility(env[s.name], value.result.value, TypingView(env), s.loc);
      Checked(s, env) == if inc.Fail? then Typing(Fail(inc.failure), value.errors) else Typing(Ok(env), value.errors + inc.value)
  {
    assert Checked(s, env) == AssignmentRule(s, env);
  }

  /** The assignment rule, given the typing of the value. */
  function AssignmentWith(s: Stmt, env: map<string, Type>, value: Typing<Type>): Typing<map<string, Type>>
    requires s.VariableAssignment?
  {
    if s.name !in env then Typing(Fail(UnknownName(s.name)), [])
    else if value.result.Fail? then Typing(Fail(value.result.failure), value.errors)
    else
      match Incompatibility(env[s.name], value.result.value, TypingView(env), s.loc)
      case Fail(f) => Typing(Fail(f), value.errors)
      case Ok(errors) => Typing(Ok(env), value.errors + errors)
  }

  /** The statements checked in order, each against the bindings the previous
      ones left. */
  function CheckedAll(ss: seq<Stmt>, env: map<string, Type>): Typing<map<string, Type>>
    decreases StmtsSize(ss), 2
  {
    if ss == [] then Typing(Ok(env), [])
    else
      var last := |ss| - 1;
      StmtsSizeSplit(ss);
      var before := CheckedAll(ss[..last], env);
      if before.result.Fail? then before
      else Then(before, Checked(ss[last], before.result.value))
  }

  /** What typing a call settles: a target that is not a function, or the
      variant chosen and the full argument list passed to it. */
  datatype Call = NotAFunctionCall | Resolved(variant: Function, arguments: seq<Argument>)
  {
    /** The call's type: `Nothing`, or the variant's return type. */
    function ResultType(): Type
    {
      if NotAFunctionCall? then NothingType else variant.returnType
    }
  }

  /** `FunctionCall.type`: type the target; a dot call contributes its receiver
      as first argument and names the function; a target that is no overload
      set types as `Nothing` before any argument is typed; otherwise the
      arguments are typed in order and the variant is resolved. */
  function CallOf(e: Expr, env: map<string, Type>): Typing<Call>
    requires e.FunctionCall?
    decreases ExprSize(e), 0
  {
    CallRule(env, Typed(e.target, env), TypedArgs(e.arguments, env), e.loc)
  }

  /** The call rule, given the typing of the target and that of the explicit
      arguments. */
  function CallRule(env: map<string, Type>, t: Typing<Type>, args: Typing<seq<Argument>>, loc: Loc): Typing<Call>
  {
    if t.result.Fail? then Typing(Fail(t.result.failure), t.errors)
    else
      var callee := CallTarget(env, t.result.value);
      if callee.Fail? then Typing(Fail(callee.failure), t.errors)
      else Then(t, ApplyRule(env, callee.value, args, loc))
  }

  /** The call rule once the callee is known: a callee that is no overload set
      types as no call at all, before any argument is typed; otherwise the
      arguments are typed and the variant resolved against the callee's leading
      arguments followed by the explicit ones. */
  function ApplyRule(env: map<string, Type>, callee: Callee, args: Typing<seq<Argument>>, loc: Loc): Typing<Call>
  {
    if !callee.functionType.OverloadedFunction? then Typing(Ok(NotAFunctionCall), [])
    else if args.result.Fail? then Typing(Fail(args.result.failure), args.errors)
    else
      var arguments := callee.leading + args.result.value;
      var resolved := Resolve(env, callee.functionType, arguments, loc);
      Typing(if resolved.result.Fail? then Fail(resolved.result.failure) else Ok(Resolved(resolved.result.value, arguments)),
             args.errors + resolved.errors)
  }

  /** `ConstructorCall.type`: an unknown type name adds `UndeclaredType` and
      types as an empty record of that name; a name bound to anything but a
      record fails the cast. Otherwise every declared field left unassigned,
      then every assignment, adds its diagnostics, and the call has the record
      type. */
  function Constructed(e: Expr, env: map<string, Type>): Typing<Type>
    requires e.ConstructorCall?
    decreases ExprSize(e), 0
  {
    if e.typeName !in env then Typing(Ok(DataType(e.typeName, [])), [UndeclaredType(e.typeName, e.loc)])
    else if !env[e.typeName].DataType? then Typing(Fail(CastFailure), [])
    else
      var dataType := env[e.typeName];
      var missing := UninitializedFields(dataType, dataType.fields, e.assignments, e.loc);
      var checked := AssignmentChecks(dataType, e.assignments, env, e.loc);
      Typing(if checked.result.Fail? then Fail(checked.result.failure) else Ok(dataType), missing + checked.errors)
  }

  /** The assignments of a constructor call in order: a field the record does
      not declare adds `UndeclaredField` and its value is not typed; a declared
      one has its value typed and checked against the field's type. */
  function AssignmentChecks(dataType: Type, assignments: seq<FieldAssignment>, env: map<string, Type>, loc: Loc): Typing<()>
    requires dataType.DataType?
    decreases AssignmentsSize(assignments), 3
  {
    if assignments == [] then Typing(Ok(()), [])
    else
      var last := |assignments| - 1;
      AssignmentsSizeSplit(assignments);
      var before := AssignmentChecks(dataType, assignments[..last], env, loc);
      if before.result.Fail? then before
      else
        match FieldNamed(dataType.fields, assignments[last].field)
        case None => Typing(Ok(()), before.errors + [UndeclaredField(assignments[last].field, dataType, loc)])
        case Some(declared) =>
          var t := Typed(assignments[last].value, env);
          if t.result.Fail? then Typing(Fail(t.result.failure), before.errors + t.errors)
          else
            match Incompatibility(declared, t.result.value, TypingView(env), loc)
            case Fail(f) => Typing(Fail(f), before.errors + t.errors)
            case Ok(errors) => Typing(Ok(()), before.errors + t.errors + errors)
  }

  // ---------------------------------------------------------------- unfolding

  /** An arithmetic or comparison operator other than `+`. */
  predicate IsOperator(e: Expr)
  {
    e.Subtraction? || e.Multiplication? || e.Mod? || e.LesserThan? || e.LesserEqual? || e.Equal?
  }

  /** The fixed type of such an operator: `Integer` for arithmetic, `Boolean` for
      comparisons. */
  function OperatorType(e: Expr): Type
    requires IsOperator(e)
  {
    if e.Subtraction? || e.Multiplication? || e.Mod? then IntegerType else BooleanType
  }

  /** One step of an operator rule, with the operands' typings given. */
  lemma TypedOperator(e: Expr, env: map<string, Type>, l: Typing<Type>, r: Typing<Type>)
    requires IsOperator(e) && l == Typed(e.left, env) && r == Typed(e.right, env)
    ensures Typed(e, env) == Operands(l, r, OperatorType(e))
  {
  }

  /** One step of the match rule, with the parts' typings given. */
  lemma TypedMatch(e: Expr, env: map<string, Type>, v: Typing<Type>, cases: Typing<set<Type>>, otherwise: Typing<Type>)
    requires e.MatchExpression?
    requires v == Typed(e.value, env) && cases == TypedCases(e.patternValues, env) && otherwise == Typed(e.elseValue, env)
    ensures Typed(e, env) == Then(v, Results(cases, otherwise))
  {
  }

  /** One step of the block rule. */
  lemma TypedBlock(e: Expr, env: map<string, Type>, b: Typing<Type>)
    requires e.ExpressionBlock? && b == BlockTyped(e, env)
    ensures Typed(e, env) == b
  {
  }

  // ------------------------------------------------------------------ steps

  /** One more statement checked after a prefix that succeeded. */
  lemma CheckedAllStep(ss: seq<Stmt>, i: nat, env: map<string, Type>, before: Typing<map<string, Type>>, c: Typing<map<string, Type>>)
    requires i < |ss| && before == CheckedAll(ss[..i], env) && before.result.Ok?
    requires c == Checked(ss[i], before.result.value)
    ensures CheckedAll(ss[..i + 1], env) == Then(before, c)
  {
    assert ss[..i + 1][..i] == ss[..i];
  }

  /** Once a prefix of the statements throws, so does the whole sequence, with the
      same diagnostics. */
  lemma {:induction false} CheckedAllStops(ss: seq<Stmt>, i: nat, env: map<string, Type>)
    requires i <= |ss| && CheckedAll(ss[..i], env).result.Fail?
    ensures CheckedAll(ss, env) == CheckedAll(ss[..i], env)
    decreases |ss| - i
  {
    if i < |ss| {
      assert ss[..i + 1][..i] == ss[..i];
      CheckedAllStops(ss, i + 1, env);
    } else {
      assert ss[..i] == ss;
    }
  }

  /** One more case typed after a prefix. */
  lemma TypedCasesPrefixStep(cases: seq<MatchCase>, i: nat, env: map<string, Type>, before: Typing<set<Type>>, p: Typing<Type>, r: Typing<Type>)
    requires i < |cases| && before == TypedCases(cases[..i], env)
    requires p == Typed(cases[i].pattern, env) && r == Typed(cases[i].result, env)
    ensures TypedCases(cases[..i + 1], env) == AddCase(before, p, r)
  {
    assert cases[..i + 1][..i] == cases[..i];
    TypedCasesStep(cases[..i + 1], env, before, p, r);
  }

  lemma {:induction false} TypedCasesStops(cases: seq<MatchCase>, i: nat, env: map<string, Type>)
    requires i <= |cases| && TypedCases(cases[..i], env).result.Fail?
    ensures TypedCases(cases, env) == TypedCases(cases[..i], env)
    decreases |cases| - i
  {
    if i < |cases| {
      TypedCasesPrefixStep(cases, i, env, TypedCases(cases[..i], env), Typed(cases[i].pattern, env), Typed(cases[i].result, env));
      TypedCasesStops(cases, i + 1, env);
    } else {
      assert cases[..i] == cases;
    }
  }

  /** One more argument typed after a prefix that succeeded. */
  lemma TypedArgsStep(es: seq<Expr>, i: nat, env: map<string, Type>, before: Typing<seq<Argument>>, t: Typing<Type>)
    requires i < |es| && before == TypedArgs(es[..i], env) && before.result.Ok?
    requires t == Typed(es[i], env)
    ensures TypedArgs(es[..i + 1], env)
         == if t.result.Fail? then Typing(Fail(t.result.failure), before.errors + t.errors)
            else Typing(Ok(before.result.value + [Argument(es[i], t.result.value)]), before.errors + t.errors)
  {
    assert es[..i + 1][..i] == es[..i];
  }

  lemma {:induction false} TypedArgsStops(es: seq<Expr>, i: nat, env: map<string, Type>)
    requires i <= |es| && TypedArgs(es[..i], env).result.Fail?
    ensures TypedArgs(es, env) == TypedArgs(es[..i], env)
    decreases |es| - i
  {
    if i < |es| {
      assert es[..i + 1][..i] == es[..i];
      TypedArgsStops(es, i + 1, env);
    } else {
      assert es[..i] == es;
    }
  }

  /** One more field assignment checked after a prefix that succeeded. */
  lemma AssignmentChecksStep(dataType: Type, assignments: seq<FieldAssignment>, i: nat, env: map<string, Type>, loc: Loc,
                             before: Typing<()>)
    requires dataType.DataType? && i < |assignments|
    requires before == AssignmentChecks(dataType, assignments[..i], env, loc) && before.result.Ok?
    ensures AssignmentChecks(dataType, assignments[..i + 1], env, loc)
         == match FieldNamed(dataType.fields, assignments[i].field)
            case None => Typing(Ok(()), before.errors + [UndeclaredField(assignments[i].field, dataType, loc)])
            case Some(declared) =>
              var t := Typed(assignments[i].value, env);
              if t.result.Fail? then Typing(Fail(t.result.failure), before.errors + t.errors)
              else
                match Incompatibility(declared, t.result.value, TypingView(env), loc)
                case Fail(f) => Typing(Fail(f), before.errors + t.errors)
                case Ok(errors) => Typing(Ok(()), before.errors + t.errors + errors)
  {
    assert assignments[..i + 1][..i] == assignments[..i];
  }

  lemma {:induction false} AssignmentChecksStops(dataType: Type, assignments: seq<FieldAssignment>, i: nat, env: map<string, Type>, loc: Loc)
    requires dataType.DataType? && i <= |assignments|
    requires AssignmentChecks(dataType, assignments[..i], env, loc).result.Fail?
    ensures AssignmentChecks(dataType, assignments, env, loc) == AssignmentChecks(dataType, assignments[..i], env, loc)
    decreases |assignments| - i
  {
    if i < |assignments| {
      assert assignments[..i + 1][..i] == assignments[..i];
      AssignmentChecksStops(dataType, assignments, i + 1, env, loc);
    } else {
      assert assignments[..i] == assignments;
    }
  }

  /** One more parameter checked after a prefix that succeeded. */
  lemma ParamChecksStep(params: seq<Parameter>, i: nat, arguments: seq<Argument>, view: FunctionScope, loc: Loc, before: Typing<()>)
    requires i < |params| && before == ParamChecks(params[..i], arguments, view, loc) && before.result.Ok?
    ensures ParamChecks(params[..i + 1], arguments, view, loc)
         == if i >= |arguments| then Typing(Fail(IndexOutOfBounds), before.errors)
            else
              match Incompatibility(params[i].paramType, arguments[i].argType, view, loc)
              case Fail(f) => Typing(Fail(f), before.errors)
              case Ok(errors) => Typing(Ok(()), before.errors + errors)
  {
    assert params[..i + 1][..i] == params[..i];
  }

  lemma {:induction false} ParamChecksStops(params: seq<Parameter>, i: nat, arguments: seq<Argument>, view: FunctionScope, loc: Loc)
    requires i <= |params| && ParamChecks(params[..i], arguments, view, loc).result.Fail?
    ensures ParamChecks(params, arguments, view, loc) == ParamChecks(params[..i], arguments, view, loc)
    decreases |params| - i
  {
    if i < |params| {
      assert params[..i + 1][..i] == params[..i];
      ParamChecksStops(params, i + 1, arguments, view, loc);
    } else {
      assert params[..i] == params;
    }
  }

  /** One more declared field looked for among the assignments. */
  lemma UninitializedFieldsStep(dataType: Type, fields: seq<Field>, i: nat, assignments: seq<FieldAssignment>, loc: Loc)
    requires i < |fields|
    ensures UninitializedFields(dataType, fields[..i + 1], assignments, loc)
         == UninitializedFields(dataType, fields[..i], assignments, loc)
            + (if Assigned(assignments, fields[i].name) then [] else [UninitializedField(fields[i].name, dataType, loc)])
  {
    assert fields[..i + 1][..i] == fields[..i];
  }

  /** One more wrapping decision after a prefix of the arguments. */
  lemma WrapFlagsStep(before: map<Expr, Type>, params: seq<Parameter>, arguments: seq<Argument>, i: nat)
    requires i < |arguments| <= |params|
    ensures WrapFlags(before, params, arguments[..i + 1])
         == var flags := WrapFlags(before, params, arguments[..i]);
            if Wrapped(params, arguments, i) then flags[arguments[i].value := params[i].paramType] else flags
  {
    assert arguments[..i + 1][..i] == arguments[..i];
  }

  // ------------------------------------------------------------- properties

  /** Typing a name never throws; an unbound name adds exactly one diagnostic. */
  lemma UnknownIdentifierIsNothing(env: map<string, Type>, id: string, loc: Loc)
    requires id !in env
    ensures Typed(IdExpression(id, loc), env) == Typing(Ok(NothingType), [UnknownIdentifier(id, loc)])
  {
  }

  /** Brackets are transparent to typing. */
  lemma BracketIsTransparent(inner: Expr, env: map<string, Type>)
    ensures Typed(BracketExpression(inner), env) == Typed(inner, env)
  {
  }

  /** A negation is `Boolean` without its operand being typed, whatever the
      operand. */
  lemma NegationIsBoolean(operand: Expr, env: map<string, Type>)
    ensures Typed(Negation(operand), env) == Typing(Ok(BooleanType), [])
  {
  }

  /** An addition has its left operand's type, whatever the right one's: the
      two are never compared. The left operand's diagnostics are added twice. */
  lemma AdditionHasLeftType(node: nat, left: Expr, right: Expr, env: map<string, Type>)
    requires Typed(left, env).result.Ok? && Typed(right, env).result.Ok?
    ensures Typed(Addition(node, left, right), env)
         == Typing(Typed(left, env).result, Typed(left, env).errors + Typed(left, env).errors + Typed(right, env).errors)
  {
    TypedAddition(node, left, right, env, Typed(left, env), Typed(right, env));
    LeftTwiceThenRight(Typed(left, env), Typed(right, env));
  }

  /** One step of the addition rule, with the operands' typings given. */
  lemma TypedAddition(node: nat, left: Expr, right: Expr, env: map<string, Type>, l: Typing<Type>, r: Typing<Type>)
    requires l == Typed(left, env) && r == Typed(right, env)
    ensures Typed(Addition(node, left, right), env) == Then(l, Then(l, Then(r, Typing(l.result, []))))
  {
  }

  lemma LeftTwiceThenRight(l: Typing<Type>, r: Typing<Type>)
    requires l.result.Ok? && r.result.Ok?
    ensures Then(l, Then(l, Then(r, Typing(l.result, [])))) == Typing(l.result, l.errors + l.errors + r.errors)
  {
    assert r.errors + [] == r.errors;
  }

  /** Example: `1 + "a"` types as `Integer` with no diagnostic. */
  lemma IntegerPlusString(node: nat, env: map<string, Type>)
    ensures Typed(Addition(node, IntLiteral(1), StringLiteral("a")), env) == Typing(Ok(IntegerType), [])
  {
    AdditionHasLeftType(node, IntLiteral(1), StringLiteral("a"), env);
  }

  /** When an `if` types, its type is the union of its branch types. */
  lemma IfIsUnion(c: Expr, t: Expr, f: Expr, env: map<string, Type>)
    requires Typed(IfExpression(c, t, f), env).result.Ok?
    ensures Typed(t, env).result.Ok? && Typed(f, env).result.Ok?
    ensures Typed(IfExpression(c, t, f), env).result.value
         == Union({Typed(t, env).result.value, Typed(f, env).result.value})
    ensures Typed(IfExpression(c, t, f), env).errors
         == Typed(c, env).errors + Typed(t, env).errors + Typed(f, env).errors
  {
    TypedIf(c, t, f, env, Typed(c, env), Typed(t, env), Typed(f, env));
    ThenBranches(Typed(c, env), Typed(t, env), Typed(f, env));
  }

  /** One step of the `if` rule, with the parts' typings given. */
  lemma TypedIf(c: Expr, t: Expr, f: Expr, env: map<string, Type>, tc: Typing<Type>, tt: Typing<Type>, tf: Typing<Type>)
    requires tc == Typed(c, env) && tt == Typed(t, env) && tf == Typed(f, env)
    ensures Typed(IfExpression(c, t, f), env) == Then(tc, Branches(tt, tf))
  {
  }

  /** The condition, then both branches: all three succeed, in order. */
  lemma ThenBranches(tc: Typing<Type>, tt: Typing<Type>, tf: Typing<Type>)
    requires Then(tc, Branches(tt, tf)).result.Ok?
    ensures tc.result.Ok? && tt.result.Ok? && tf.result.Ok?
    ensures Then(tc, Branches(tt, tf))
         == Typing(Ok(Union({tt.result.value, tf.result.value})), tc.errors + tt.errors + tf.errors)
  {
  }

  /** A block without statements types as its result expression. */
  lemma BlockOfNoStatements(e: Expr, env: map<string, Type>)
    requires e.ExpressionBlock? && e.statements == []
    ensures Typed(e, env) == Typed(e.returnExpression, env)
  {
    var r := Typed(e.returnExpression, env);
    TypedBlock(e, env, BlockTyped(e, env));
    assert CheckedAll([], env) == Typing(Ok(env), []);
    assert [] + r.errors == r.errors;
  }

  /** Example: `if true { 2 } else { "text!" }` types as `Inline` of both. */
  lemma IfOfIntegerAndString(env: map<string, Type>)
    ensures Typed(IfExpression(BooleanLiteral(true), ExpressionBlock([], IntLiteral(2)), ExpressionBlock([], StringLiteral("text!"))), env)
         == Typing(Ok(EnumType("Inline", {IntegerType, StringType})), [])
  {
    var yes, two, text := BooleanLiteral(true), ExpressionBlock([], IntLiteral(2)), ExpressionBlock([], StringLiteral("text!"));
    BlockOfNoStatements(two, env);
    BlockOfNoStatements(text, env);
    IfIsUnion(yes, two, text, env);
    UnionOfTwo(IntegerType, StringType);
  }

  /** Example: `if true { 2 } else { 1 }` types as `Integer`. */
  lemma IfOfIntegers(env: map<string, Type>)
    ensures Typed(IfExpression(BooleanLiteral(true), ExpressionBlock([], IntLiteral(2)), ExpressionBlock([], IntLiteral(1))), env)
         == Typing(Ok(IntegerType), [])
  {
    var yes, two, one := BooleanLiteral(true), ExpressionBlock([], IntLiteral(2)), ExpressionBlock([], IntLiteral(1));
    BlockOfNoStatements(two, env);
    BlockOfNoStatements(one, env);
    IfIsUnion(yes, two, one, env);
    UnionOfOne(IntegerType);
    assert {IntegerType, IntegerType} == {IntegerType};
  }

  /** The result of the case has type `t`. */
  predicate ResultTyped(c: MatchCase, env: map<string, Type>, t: Type)
  {
    Typed(c.result, env).result == Ok(t)
  }

  /** When the cases type, their set holds exactly the result types of the cases. */
  lemma {:induction false} CaseTypes(cases: seq<MatchCase>, env: map<string, Type>)
    requires TypedCases(cases, env).result.Ok?
    ensures forall t :: t in TypedCases(cases, env).result.value <==>
              exists k :: 0 <= k < |cases| && ResultTyped(cases[k], env, t)
    decreases |cases|
  {
    if cases != [] {
      var last := |cases| - 1;
      var init := cases[..last];
      var before, p, rr := TypedCases(init, env), Typed(cases[last].pattern, env), Typed(cases[last].result, env);
      TypedCasesStep(cases, env, before, p, rr);
      AddCaseOk(before, p, rr);
      CaseTypes(init, env);
      var r := rr.result.value;
      var holds := (c, t) => ResultTyped(c, env, t);
      assert forall t :: holds(cases[last], t) ==> t == r;
      OneMore(init, cases[last], holds, before.result.value, r);
      assert init + [cases[last]] == cases;
    }
  }

  /** One step of typing the cases: the last case is added to the others. */
  lemma TypedCasesStep(cases: seq<MatchCase>, env: map<string, Type>, before: Typing<set<Type>>, p: Typing<Type>, r: Typing<Type>)
    requires cases != []
    requires before == TypedCases(cases[..|cases| - 1], env)
    requires p == Typed(cases[|cases| - 1].pattern, env) && r == Typed(cases[|cases| - 1].result, env)
    ensures TypedCases(cases, env) == AddCase(before, p, r)
  {
  }

  /** The set of what holds of some element, extended by one element. */
  lemma OneMore<X>(init: seq<X>, x: X, holds: (X, Type) -> bool, before: set<Type>, r: Type)
    requires forall t :: t in before <==> exists k :: 0 <= k < |init| && holds(init[k], t)
    requires holds(x, r) && forall t :: holds(x, t) ==> t == r
    ensures forall t :: t in before + {r} <==> exists k :: 0 <= k < |init + [x]| && holds((init + [x])[k], t)
  {
    var xs := init + [x];
    forall t | t in before + {r}
      ensures exists k :: 0 <= k < |xs| && holds(xs[k], t)
    {
      if t == r {
        assert holds(xs[|init|], t);
      } else {
        var k :| 0 <= k < |init| && holds(init[k], t);
        assert xs[k] == init[k];
      }
    }
    forall t | exists k :: 0 <= k < |xs| && holds(xs[k], t)
      ensures t in before + {r}
    {
      var k :| 0 <= k < |xs| && holds(xs[k], t);
      if k < |init| {
        assert xs[k] == init[k];
      }
    }
  }

  /** A case is added only when everything before it and both its parts type. */
  lemma AddCaseOk(before: Typing<set<Type>>, pattern: Typing<Type>, result: Typing<Type>)
    requires AddCase(before, pattern, result).result.Ok?
    ensures before.result.Ok? && pattern.result.Ok? && result.result.Ok?
    ensures AddCase(before, pattern, result).result.value == before.result.value + {result.result.value}
  {
  }

  /** When a match types, its type is the union of every case's result type and
      the `else` type. */
  lemma MatchIsUnion(v: Expr, cases: seq<MatchCase>, otherwise: Expr, env: map<string, Type>)
    requires Typed(MatchExpression(v, cases, otherwise), env).result.Ok?
    ensures TypedCases(cases, env).result.Ok? && Typed(otherwise, env).result.Ok?
    ensures Typed(MatchExpression(v, cases, otherwise), env).result.value
         == Union(TypedCases(cases, env).result.value + {Typed(otherwise, env).result.value})
    ensures forall t :: t in TypedCases(cases, env).result.value <==>
              exists k :: 0 <= k < |cases| && ResultTyped(cases[k], env, t)
  {
    CaseTypes(cases, env);
  }

  /** A field access on a record that declares the field has the field's type. */
  lemma DotCallOnField(target: Expr, id: string, loc: Loc, env: map<string, Type>, name: string, fields: seq<Field>, k: nat)
    requires Typed(target, env) == Typing(Ok(DataType(name, fields)), [])
    requires name in env && env[name] == DataType(name, fields)
    requires k < |fields| && fields[k].name == id && forall j :: 0 <= j < k ==> fields[j].name != id
    ensures Typed(DotCall(target, id, loc), env) == Typing(Ok(fields[k].fieldType), [])
  {
    TypedDotCall(target, id, loc, env, Typed(target, env));
    var r := FieldNamed(fields, id);
    var k' :| 0 <= k' < |fields| && fields[k'] == Field(id, r.value) && forall j :: 0 <= j < k' ==> fields[j].name != id;
    assert !(k < k') && !(k' < k);
  }

  /** One step of the dot rule, with the target's typing given. */
  lemma TypedDotCall(target: Expr, id: string, loc: Loc, env: map<string, Type>, t: Typing<Type>)
    requires t == Typed(target, env)
    ensures Typed(DotCall(target, id, loc), env)
         == if t.result.Fail? then t else Then(t, DotCallType(env, target, t.result.value, id, loc))
  {
  }

  /** Otherwise a dot names a function to apply to the target, or an unknown
      field, which adds one `UndeclaredField` and types as `Nothing`. */
  lemma DotCallOtherwise(target: Expr, id: string, loc: Loc, env: map<string, Type>, targetType: Type)
    requires Typed(target, env) == Typing(Ok(targetType), [])
    requires targetType.name in env
    requires !env[targetType.name].DataType? || forall k :: 0 <= k < |env[targetType.name].fields| ==> env[targetType.name].fields[k].name != id
    ensures id !in env ==> Typed(DotCall(target, id, loc), env) == Typing(Ok(NothingType), [UndeclaredField(id, targetType, loc)])
    ensures id in env && env[id].OverloadedFunction? ==>
              Typed(DotCall(target, id, loc), env) == Typing(Ok(PreAppliedFunction(id, Argument(target, targetType))), [])
    ensures id in env && !env[id].OverloadedFunction? ==> Typed(DotCall(target, id, loc), env).result == Fail(NotAFunction(id))
  {
  }

  // ------------------------------------------------------------------ calls

  /** With an argument for every parameter, the single-variant checks add
      nothing exactly when every parameter accepts its argument, and every
      diagnostic they add is an `IncompatibleType` for one parameter. */
  lemma {:induction false} ParamChecksIff(params: seq<Parameter>, arguments: seq<Argument>, view: FunctionScope, loc: Loc)
    requires |params| <= |arguments|
    ensures ParamChecks(params, arguments, view, loc) == Typing(Ok(()), [])
        <==> forall i :: 0 <= i < |params| ==> AssignableFrom(params[i].paramType, arguments[i].argType, Some(view)) == Ok(true)
    ensures ParamChecks(params, arguments, view, loc).result.Ok? ==>
              forall err :: err in ParamChecks(params, arguments, view, loc).errors ==>
                exists i :: 0 <= i < |params| && AssignableFrom(params[i].paramType, arguments[i].argType, Some(view)) == Ok(false)
                            && err == IncompatibleType(params[i].paramType, arguments[i].argType, loc)
    decreases |params|
  {
    if params != [] {
      var last := |params| - 1;
      ParamChecksIff(params[..last], arguments, view, loc);
      assert forall i :: 0 <= i < last ==> params[..last][i] == params[i];
    }
  }

  /** Too few arguments for the only variant always throws. */
  lemma {:induction false} ParamChecksTooFew(params: seq<Parameter>, arguments: seq<Argument>, view: FunctionScope, loc: Loc)
    requires |arguments| < |params|
    ensures ParamChecks(params, arguments, view, loc).result.Fail?
    decreases |params|
  {
    var last := |params| - 1;
    if |arguments| < last {
      ParamChecksTooFew(params[..last], arguments, view, loc);
    }
  }

  /** An expression is wrapped exactly when some argument computed by it is
      passed to an interface parameter of another type, and it is wrapped as an
      interface. */
  lemma {:induction false} WrapFlagsMembers(before: map<Expr, Type>, params: seq<Parameter>, arguments: seq<Argument>)
    requires |arguments| <= |params|
    ensures forall x :: x in WrapFlags(before, params, arguments) <==>
              x in before || exists i :: 0 <= i < |arguments| && arguments[i].value == x && Wrapped(params, arguments, i)
    ensures forall x :: x in WrapFlags(before, params, arguments) && x !in before ==>
              WrapFlags(before, params, arguments)[x].InterfaceType?
    decreases |arguments|
  {
    if arguments != [] {
      var last := |arguments| - 1;
      WrapFlagsMembers(before, params, arguments[..last]);
      assert forall i :: 0 <= i < last ==> arguments[..last][i] == arguments[i];
      forall x | x in WrapFlags(before, params, arguments) && x !in before && x != arguments[last].value
        ensures exists i :: 0 <= i < |arguments| && arguments[i].value == x && Wrapped(params, arguments, i)
      {
        var i :| 0 <= i < last && arguments[..last][i].value == x && Wrapped(params, arguments[..last], i);
        assert arguments[i] == arguments[..last][i];
      }
    }
  }

  /** A call whose target types as something other than a function types as
      `Nothing`, adds no diagnostic of its own and types no argument. */
  lemma CallOfNonFunction(node: nat, target: Expr, arguments: seq<Expr>, loc: Loc, env: map<string, Type>)
    requires Typed(target, env).result.Ok?
    requires !Typed(target, env).result.value.OverloadedFunction? && !Typed(target, env).result.value.PreAppliedFunction?
    ensures Typed(FunctionCall(node, target, arguments, loc), env) == Typing(Ok(NothingType), Typed(target, env).errors)
  {
    assert CallOf(FunctionCall(node, target, arguments, loc), env) == Typing(Ok(NotAFunctionCall), Typed(target, env).errors);
  }

  /** A dot call's receiver becomes the first argument of the resolved call, and
      the explicit arguments follow it in order. */
  lemma DotCallReceiverFirst(node: nat, target: Expr, arguments: seq<Expr>, loc: Loc, env: map<string, Type>)
    requires Typed(target, env).result.Ok? && Typed(target, env).result.value.PreAppliedFunction?
    requires CallOf(FunctionCall(node, target, arguments, loc), env).result.Ok?
    requires CallOf(FunctionCall(node, target, arguments, loc), env).result.value.Resolved?
    ensures var call := CallOf(FunctionCall(node, target, arguments, loc), env).result.value;
      TypedArgs(arguments, env).result.Ok?
      && call.arguments == [Typed(target, env).result.value.firstArgument] + TypedArgs(arguments, env).result.value
  {
  }

  /** Among several variants, the call resolves to the one `getVariant` picks and
      adds no diagnostic. */
  lemma SeveralVariantsResolveUniquely(env: map<string, Type>, functionType: Type, arguments: seq<Argument>, loc: Loc)
    requires functionType.OverloadedFunction? && |functionType.functions| != 1
    requires Resolve(env, functionType, arguments, loc).result.Ok?
    ensures Resolve(env, functionType, arguments, loc).errors == []
    ensures GetVariant(functionType.name, functionType.functions, ArgTypes(arguments), TypingView(env))
         == Resolve(env, functionType, arguments, loc).result
  {
  }

  /** The arguments of `add(5, "not a number")` type as `Integer` and `String`. */
  lemma AddArguments(args: seq<Expr>, env: map<string, Type>)
    requires args == [IntLiteral(5), StringLiteral("not a number")]
    ensures TypedArgs(args, env)
         == Typing(Ok([Argument(IntLiteral(5), IntegerType), Argument(StringLiteral("not a number"), StringType)]), [])
  {
    var one := args[..1];
    assert one[..0] == [] && one[0] == IntLiteral(5);
    assert TypedArgs(one[..0], env) == Typing(Ok([]), []);
    var five: seq<Argument> := [Argument(IntLiteral(5), IntegerType)];
    assert [] + five == five;
    assert TypedArgs(one, env) == Typing(Ok(five), []);
    assert args[..|args| - 1] == one && args[|args| - 1] == StringLiteral("not a number");
    assert Typed(args[1], env) == Typing(Ok(StringType), []);
    var both := five + [Argument(StringLiteral("not a number"), StringType)];
    assert both == [Argument(IntLiteral(5), IntegerType), Argument(StringLiteral("not a number"), StringType)];
    assert TypedArgs(args, env) == Typing(Ok(both), []);
  }

  /** `add`'s parameters accept the `5` and report the string. */
  lemma AddParameters(params: seq<Parameter>, arguments: seq<Argument>, view: FunctionScope, loc: Loc)
    requires params == [Parameter("a", IntegerType), Parameter("b", IntegerType)]
    requires arguments == [Argument(IntLiteral(5), IntegerType), Argument(StringLiteral("not a number"), StringType)]
    ensures ParamChecks(params, arguments, view, loc) == Typing(Ok(()), [IncompatibleType(IntegerType, StringType, loc)])
  {
    PlainTypesAreNominal(IntegerType, IntegerType, Some(view));
    PlainTypesAreNominal(IntegerType, StringType, Some(view));
    assert params[..1][..0] == [];
    assert ParamChecks(params[..1], arguments, view, loc) == Typing(Ok(()), []);
  }

  /** Example: with `add(a: Integer, b: Integer): Integer` declared,
      `add(5, "not a number")` types as `Integer` and reports the string. */
  lemma AddNotANumber(env: map<string, Type>, add: Function, e: Expr, loc: Loc, node: nat)
    requires add.arguments == [Parameter("a", IntegerType), Parameter("b", IntegerType)] && add.returnType == IntegerType
    requires "add" in env && env["add"] == OverloadedFunction("add", [add])
    requires e == FunctionCall(node, IdExpression("add", loc), [IntLiteral(5), StringLiteral("not a number")], loc)
    ensures Typed(e, env) == Typing(Ok(IntegerType), [IncompatibleType(IntegerType, StringType, loc)])
  {
    AddArguments(e.arguments, env);
    var typedArgs := [Argument(IntLiteral(5), IntegerType), Argument(StringLiteral("not a number"), StringType)];
    AddParameters(add.arguments, typedArgs, TypingView(env), loc);
    assert Typed(e.target, env) == Typing(Ok(env["add"]), []);
    assert CallTarget(env, env["add"]) == Ok(Callee(env["add"], []));
    assert [] + typedArgs == typedArgs;
    assert Resolve(env, env["add"], typedArgs, loc) == Typing(Ok(add), [IncompatibleType(IntegerType, StringType, loc)]);
    var call := CallOf(e, env);
    assert call == Typing(Ok(Resolved(add, typedArgs)), [IncompatibleType(IntegerType, StringType, loc)]);
    TypedCall(e, env, call);
  }

  /** One step of the call rule, with the call's settlement given. */
  lemma TypedCall(e: Expr, env: map<string, Type>, call: Typing<Call>)
    requires e.FunctionCall? && call == CallOf(e, env)
    ensures Typed(e, env) == Typing(if call.result.Fail? then Fail(call.result.failure) else Ok(call.result.value.ResultType()), call.errors)
  {
  }

  // ------------------------------------------------------- constructor calls

  /** A field is reported uninitialized exactly when the record declares it and
      the call does not assign it; nothing else is reported. */
  lemma {:induction false} UninitializedFieldsIff(dataType: Type, fields: seq<Field>, assignments: seq<FieldAssignment>, loc: Loc)
    ensures forall err :: err in UninitializedFields(dataType, fields, assignments, loc) <==>
              exists k :: 0 <= k < |fields| && !Assigned(assignments, fields[k].name)
                          && err == UninitializedField(fields[k].name, dataType, loc)
    decreases |fields|
  {
    if fields != [] {
      var last := |fields| - 1;
      UninitializedFieldsIff(dataType, fields[..last], assignments, loc);
      assert forall k :: 0 <= k < last ==> fields[..last][k] == fields[k];
    }
  }

  /** An unknown type name adds `UndeclaredType` and the call types as an empty
      record of that name, whatever the assignments. */
  lemma UnknownTypeConstructsEmpty(node: nat, typeName: string, assignments: seq<FieldAssignment>, loc: Loc, env: map<string, Type>)
    requires typeName !in env
    ensures Typed(ConstructorCall(node, typeName, assignments, loc), env)
         == Typing(Ok(DataType(typeName, [])), [UndeclaredType(typeName, loc)])
  {
    var e := ConstructorCall(node, typeName, assignments, loc);
    TypedConstructorCall(e, env, Constructed(e, env));
  }

  /** A constructor call that types has the record type its name is bound to. */
  lemma ConstructedIsDeclared(node: nat, typeName: string, assignments: seq<FieldAssignment>, loc: Loc, env: map<string, Type>)
    requires typeName in env
    requires Typed(ConstructorCall(node, typeName, assignments, loc), env).result.Ok?
    ensures env[typeName].DataType? && Typed(ConstructorCall(node, typeName, assignments, loc), env).result.value == env[typeName]
  {
    var e := ConstructorCall(node, typeName, assignments, loc);
    TypedConstructorCall(e, env, Constructed(e, env));
  }

  /** An assignment to a field the record does not declare adds one
      `UndeclaredField`, and its value is never typed: any value gives the same. */
  lemma UndeclaredFieldSkipsValue(dataType: Type, assignments: seq<FieldAssignment>, field: string, value: Expr, other: Expr,
                                  env: map<string, Type>, loc: Loc)
    requires dataType.DataType?
    requires FieldNamed(dataType.fields, field).None?
    requires AssignmentChecks(dataType, assignments, env, loc).result.Ok?
    ensures AssignmentChecks(dataType, assignments + [FieldAssignment(field, value)], env, loc)
         == Typing(Ok(()), AssignmentChecks(dataType, assignments, env, loc).errors + [UndeclaredField(field, dataType, loc)])
    ensures AssignmentChecks(dataType, assignments + [FieldAssignment(field, value)], env, loc)
         == AssignmentChecks(dataType, assignments + [FieldAssignment(field, other)], env, loc)
  {
    var withValue, withOther := assignments + [FieldAssignment(field, value)], assignments + [FieldAssignment(field, other)];
    assert withValue[..|assignments|] == assignments && withOther[..|assignments|] == assignments;
  }

  /** Example: `MyData { name: "Luna" }`, where `MyData` declares `name: String`
      and `age: Integer`, reports `age` uninitialized. */
  lemma MissingAgeField(env: map<string, Type>, e: Expr, loc: Loc, node: nat)
    requires "MyData" in env && env["MyData"] == DataType("MyData", [Field("name", StringType), Field("age", IntegerType)])
    requires e == ConstructorCall(node, "MyData", [FieldAssignment("name", StringLiteral("Luna"))], loc)
    ensures Typed(e, env) == Typing(Ok(env["MyData"]), [UninitializedField("age", env["MyData"], loc)])
  {
    var myData := env["MyData"];
    var assignments := e.assignments;
    assert assignments[..0] == [];
    assert assignments[0].field == "name";
    assert Assigned(assignments, "name");
    assert !Assigned(assignments, "age");
    var fields := myData.fields;
    assert fields[..1] == [Field("name", StringType)] && fields[..1][..0] == [];
    assert UninitializedFields(myData, fields[..1][..0], assignments, loc) == [];
    assert UninitializedFields(myData, fields[..1], assignments, loc) == [];
    assert UninitializedFields(myData, fields, assignments, loc) == [UninitializedField("age", myData, loc)];
    assert FieldNamed(fields, "name") == Some(StringType);
    AssignableReflexive(StringType, Some(TypingView(env)));
    assert AssignmentChecks(myData, assignments, env, loc) == Typing(Ok(()), []);
    TypedConstructorCall(e, env, Constructed(e, env));
  }

  /** One step of the constructor rule. */
  lemma TypedConstructorCall(e: Expr, env: map<string, Type>, c: Typing<Type>)
    requires e.ConstructorCall? && c == Constructed(e, env)
    ensures Typed(e, env) == c
  {
  }
}
