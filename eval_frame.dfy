/** Which names evaluation can add, and where.

    An expression never changes which names any existing layer binds: it may
    rebind a name where it lives, and it may push layers of its own (a block, a
    loop, a call), but those are new. A statement may in addition define names
    in the top layer, and a file-level pass (built-ins, imports, interfaces,
    functions) the same. An import adds names to the importer's top layer only,
    and exactly the listed ones. So a call leaves the caller seeing the names it
    saw before: the callee's parameters and locals never leak out. */
module EvalFrame {
  import opened Wrappers
  import opened KotlinInt
  import opened Syntax
  import opened BuiltIns
  import opened Types
  import opened Overloads
  import opened Scopes
  import opened Values
  import opened Runtime
  import opened Semantics

  /** Every layer of `before` keeps its parent, and every one but `except` keeps
      the set of names it binds; `after` may add layers. */
  ghost predicate NamesKept(before: seq<Layer<Value>>, after: seq<Layer<Value>>, except: Option<nat>)
  {
    |before| <= |after|
    && forall k {:trigger after[k], before[k]} :: 0 <= k < |before| ==>
         after[k].parent == before[k].parent
         && (except != Some(k) ==> after[k].bindings.Keys == before[k].bindings.Keys)
  }

  lemma KeptTransitive(first: seq<Layer<Value>>, second: seq<Layer<Value>>, third: seq<Layer<Value>>, except: Option<nat>)
    requires NamesKept(first, second, except) && NamesKept(second, third, except)
    ensures NamesKept(first, third, except)
  {
    forall k | 0 <= k < |first|
      ensures third[k].parent == first[k].parent
      ensures except != Some(k) ==> third[k].bindings.Keys == first[k].bindings.Keys
    {
      assert second[k].parent == first[k].parent;
    }
  }

  lemma KeptEverywhere(before: seq<Layer<Value>>, after: seq<Layer<Value>>, except: Option<nat>)
    requires NamesKept(before, after, None)
    ensures NamesKept(before, after, except)
  {
  }


  /** Changes confined to layers from `base` on keep the layers below it. */
  lemma KeptBelow(before: seq<Layer<Value>>, after: seq<Layer<Value>>, except: Option<nat>, base: nat)
    requires NamesKept(before, after, except) && base <= |before|
    requires except.None? || except.value >= base
    ensures NamesKept(before[..base], after, None)
  {
  }

  // ------------------------------------------------------- machine operations

  lemma DefineKeeps(m: Machine, id: string, v: Value)
    requires Valid(m) && Define(m, id, v).Ok?
    ensures NamesKept(m.layers, Define(m, id, v).value.layers, TopOf(m.stack))
  {
  }

  lemma AssignKeeps(m: Machine, id: string, v: Value)
    requires Valid(m) && Assign(m, id, v).Ok?
    ensures NamesKept(m.layers, Assign(m, id, v).value.layers, None)
  {
    var top := m.stack[|m.stack| - 1];
    var o := Owner(m.layers, top, id).value;
    var after := Assign(m, id, v).value.layers;
    assert after[o].bindings.Keys == m.layers[o].bindings.Keys;
  }

  lemma SetInKeeps(m: Machine, layer: nat, id: string, v: Value)
    requires Valid(m) && layer < |m.layers|
    ensures NamesKept(m.layers, SetIn(m, layer, id, v).layers, Some(layer))
  {
  }

  lemma DefineFunctionKeeps(m: Machine, name: string, impl: Function)
    requires Valid(m) && DefineFunction(m, name, impl).Ok?
    ensures NamesKept(m.layers, DefineFunction(m, name, impl).value.layers, TopOf(m.stack))
  {
    match Get(m, name)
    case Fail(_) =>
      DefineKeeps(m, name, TypeValue(OverloadedFunction(name, [impl])));
    case Ok(existing) =>
      var extended := RuntimeAddVariant(name, existing, impl).value;
      AssignKeeps(m, name, extended);
  }

  /** A layer pushed on top of `m` and written by what runs in it leaves the
      names of `m`'s layers alone. */
  lemma PushedKeeps(m: Machine, pushed: Machine, after: seq<Layer<Value>>)
    requires |pushed.layers| == |m.layers| + 1 && pushed.layers[..|m.layers|] == m.layers
    requires pushed.stack == m.stack + [|m.layers|]
    requires NamesKept(pushed.layers, after, TopOf(pushed.stack))
    ensures NamesKept(m.layers, after, None)
  {
  }

  // ------------------------------------------------------------- expressions

  lemma {:induction false} EvalKeeps(n: Nodes, e: Expr, m: Machine, fuel: nat)
    requires Valid(m)
    ensures NamesKept(m.layers, Eval(n, e, m, fuel).m.layers, None)
    decreases fuel, 0, ExprSize(e), 2
  {
    NodeKeeps(n, e, m, fuel);
  }

  lemma {:induction false} NodeKeeps(n: Nodes, e: Expr, m: Machine, fuel: nat)
    requires Valid(m)
    ensures NamesKept(m.layers, EvalNode(n, e, m, fuel).m.layers, None)
    decreases fuel, 0, ExprSize(e), 1
  {
    match e
    case Negation(_) => NegationKeeps(n, e, m, fuel);
    case UnaryMinus(_) => UnaryMinusKeeps(n, e, m, fuel);
    case Addition(_, _, _) => AdditionKeeps(n, e, m, fuel);
    case Subtraction(_, _) => OperatorKeeps(n, e, m, fuel);
    case Multiplication(_, _) => OperatorKeeps(n, e, m, fuel);
    case Mod(_, _) => OperatorKeeps(n, e, m, fuel);
    case LesserThan(_, _) => OperatorKeeps(n, e, m, fuel);
    case LesserEqual(_, _) => OperatorKeeps(n, e, m, fuel);
    case Equal(_, _) => EqualKeeps(n, e, m, fuel);
    case IfExpression(_, _, _) => IfKeeps(n, e, m, fuel);
    case MatchExpression(_, _, _) => MatchKeeps(n, e, m, fuel);
    case ExpressionBlock(_, _) => BlockKeeps(n, e, m, fuel);
    case FunctionCall(_, _, _, _) => CallKeeps(n, e, m, fuel);
    case DotCall(_, _, _) => DotCallKeeps(n, e, m, fuel);
    case ConstructorCall(_, _, _, _) => ConstructorKeeps(n, e, m, fuel);
    case _ => LeafKeeps(n, e, m, fuel);
  }

  /** Literals and names leave the machine alone; brackets and casts are their
      operand. */
  lemma {:induction false} LeafKeeps(n: Nodes, e: Expr, m: Machine, fuel: nat)
    requires Valid(m)
    requires e.IntLiteral? || e.BooleanLiteral? || e.StringLiteral? || e.SymbolLiteral? || e.IdExpression?
             || e.BracketExpression? || e.TypeCast?
    ensures NamesKept(m.layers, EvalNode(n, e, m, fuel).m.layers, None)
    decreases fuel, 0, ExprSize(e), 0
  {
    match e
    case BracketExpression(inner) => EvalKeeps(n, inner, m, fuel);
    case TypeCast(value, _) => EvalKeeps(n, value, m, fuel);
    case _ =>
  }

  lemma {:induction false} NegationKeeps(n: Nodes, e: Expr, m: Machine, fuel: nat)
    requires e.Negation? && Valid(m)
    ensures NamesKept(m.layers, EvalNode(n, e, m, fuel).m.layers, None)
    decreases fuel, 0, ExprSize(e), 0
  {
    EvalKeeps(n, e.operand, m, fuel);
  }

  lemma {:induction false} UnaryMinusKeeps(n: Nodes, e: Expr, m: Machine, fuel: nat)
    requires e.UnaryMinus? && Valid(m)
    ensures NamesKept(m.layers, EvalNode(n, e, m, fuel).m.layers, None)
    decreases fuel, 0, ExprSize(e), 0
  {
    EvalKeeps(n, e.operand, m, fuel);
  }

  lemma {:induction false} DotCallKeeps(n: Nodes, e: Expr, m: Machine, fuel: nat)
    requires e.DotCall? && Valid(m)
    ensures NamesKept(m.layers, EvalNode(n, e, m, fuel).m.layers, None)
    decreases fuel, 0, ExprSize(e), 0
  {
    EvalKeeps(n, e.target, m, fuel);
  }

  lemma {:induction false} ConstructorKeeps(n: Nodes, e: Expr, m: Machine, fuel: nat)
    requires e.ConstructorCall? && Valid(m)
    ensures NamesKept(m.layers, EvalNode(n, e, m, fuel).m.layers, None)
    decreases fuel, 0, ExprSize(e), 0
  {
    FieldsKeeps(n, e.assignments, map[], m, fuel);
  }


  lemma {:induction false} IntsKeeps(n: Nodes, left: Expr, right: Expr, m: Machine, fuel: nat)
    requires Valid(m)
    ensures NamesKept(m.layers, EvalInts(n, left, right, m, fuel).m.layers, None)
    decreases fuel, 0, ExprSize(left) + ExprSize(right), 3
  {
    var a := Eval(n, left, m, fuel);
    EvalKeeps(n, left, m, fuel);
    if a.result.Ok? && AsInt(a.result.value).Ok? {
      EvalKeeps(n, right, a.m, fuel);
      KeptTransitive(m.layers, a.m.layers, Eval(n, right, a.m, fuel).m.layers, None);
    }
  }

  lemma {:induction false} OperatorKeeps(n: Nodes, e: Expr, m: Machine, fuel: nat)
    requires e.Subtraction? || e.Multiplication? || e.Mod? || e.LesserThan? || e.LesserEqual?
    requires Valid(m)
    ensures NamesKept(m.layers, EvalNode(n, e, m, fuel).m.layers, None)
    decreases fuel, 0, ExprSize(e), 0
  {
    IntsKeeps(n, e.left, e.right, m, fuel);
  }

  lemma {:induction false} AdditionKeeps(n: Nodes, e: Expr, m: Machine, fuel: nat)
    requires e.Addition? && Valid(m)
    ensures NamesKept(m.layers, EvalNode(n, e, m, fuel).m.layers, None)
    decreases fuel, 0, ExprSize(e), 0
  {
    if e.node in n.resolvedTypes {
      if n.resolvedTypes[e.node] == StringType {
        var a := Eval(n, e.left, m, fuel);
        EvalKeeps(n, e.left, m, fuel);
        if a.result.Ok? && AsString(a.result.value).Ok? {
          EvalKeeps(n, e.right, a.m, fuel);
          KeptTransitive(m.layers, a.m.layers, Eval(n, e.right, a.m, fuel).m.layers, None);
        }
      } else {
        IntsKeeps(n, e.left, e.right, m, fuel);
      }
    }
  }

  lemma {:induction false} EqualKeeps(n: Nodes, e: Expr, m: Machine, fuel: nat)
    requires e.Equal? && Valid(m)
    ensures NamesKept(m.layers, EvalNode(n, e, m, fuel).m.layers, None)
    decreases fuel, 0, ExprSize(e), 0
  {
    var a := Eval(n, e.left, m, fuel);
    EvalKeeps(n, e.left, m, fuel);
    if a.result.Ok? {
      EvalKeeps(n, e.right, a.m, fuel);
      KeptTransitive(m.layers, a.m.layers, Eval(n, e.right, a.m, fuel).m.layers, None);
    }
  }

  lemma {:induction false} IfKeeps(n: Nodes, e: Expr, m: Machine, fuel: nat)
    requires e.IfExpression? && Valid(m)
    ensures NamesKept(m.layers, EvalNode(n, e, m, fuel).m.layers, None)
    decreases fuel, 0, ExprSize(e), 0
  {
    var c := Eval(n, e.condition, m, fuel);
    EvalKeeps(n, e.condition, m, fuel);
    if c.result.Ok? && AsBool(c.result.value).Ok? {
      var branch := if AsBool(c.result.value).value then e.ifTrue else e.ifFalse;
      EvalKeeps(n, branch, c.m, fuel);
      KeptTransitive(m.layers, c.m.layers, Eval(n, branch, c.m, fuel).m.layers, None);
    }
  }

  lemma {:induction false} MatchKeeps(n: Nodes, e: Expr, m: Machine, fuel: nat)
    requires e.MatchExpression? && Valid(m)
    ensures NamesKept(m.layers, EvalNode(n, e, m, fuel).m.layers, None)
    decreases fuel, 0, ExprSize(e), 0
  {
    var v := Eval(n, e.value, m, fuel);
    EvalKeeps(n, e.value, m, fuel);
    if v.result.Ok? {
      CasesKeeps(n, v.result.value, e.patternValues, e.elseValue, v.m, fuel);
      KeptTransitive(m.layers, v.m.layers,
                     EvalCases(n, v.result.value, e.patternValues, e.elseValue, v.m, fuel).m.layers, None);
    }
  }

  lemma {:induction false} CasesKeeps(n: Nodes, v: Value, cases: seq<MatchCase>, elseValue: Expr, m: Machine, fuel: nat)
    requires Valid(m)
    ensures NamesKept(m.layers, EvalCases(n, v, cases, elseValue, m, fuel).m.layers, None)
    decreases fuel, 0, CasesSize(cases) + ExprSize(elseValue), 3
  {
    if cases == [] {
      EvalKeeps(n, elseValue, m, fuel);
    } else {
      assert CasesSize(cases) == ExprSize(cases[0].pattern) + ExprSize(cases[0].result) + CasesSize(cases[1..]);
      var p := Eval(n, cases[0].pattern, m, fuel);
      EvalKeeps(n, cases[0].pattern, m, fuel);
      if p.result.Ok? {
        if v == p.result.value {
          EvalKeeps(n, cases[0].result, p.m, fuel);
          KeptTransitive(m.layers, p.m.layers, Eval(n, cases[0].result, p.m, fuel).m.layers, None);
        } else {
          CasesKeeps(n, v, cases[1..], elseValue, p.m, fuel);
          KeptTransitive(m.layers, p.m.layers, EvalCases(n, v, cases[1..], elseValue, p.m, fuel).m.layers, None);
        }
      }
    }
  }

  lemma {:induction false} BlockKeeps(n: Nodes, e: Expr, m: Machine, fuel: nat)
    requires e.ExpressionBlock? && Valid(m)
    ensures NamesKept(m.layers, EvalNode(n, e, m, fuel).m.layers, None)
    decreases fuel, 0, ExprSize(e), 0
  {
    var inner := Enter(m);
    var body := ExecAll(n, e.statements, inner, fuel);
    ExecAllKeeps(n, e.statements, inner, fuel);
    assert inner.layers[..|m.layers|] == m.layers;
    PushedKeeps(m, inner, body.m.layers);
    if body.result.Ok? {
      EvalKeeps(n, e.returnExpression, body.m, fuel);
      KeptTransitive(m.layers, body.m.layers, Eval(n, e.returnExpression, body.m, fuel).m.layers, None);
    }
  }

  lemma {:induction false} FieldsKeeps(n: Nodes, assignments: seq<FieldAssignment>, done: map<string, Value>, m: Machine, fuel: nat)
    requires Valid(m)
    ensures NamesKept(m.layers, EvalFields(n, assignments, done, m, fuel).m.layers, None)
    decreases fuel, 0, AssignmentsSize(assignments), 3
  {
    if assignments != [] {
      assert AssignmentsSize(assignments) == ExprSize(assignments[0].value) + AssignmentsSize(assignments[1..]);
      var v := Eval(n, assignments[0].value, m, fuel);
      EvalKeeps(n, assignments[0].value, m, fuel);
      if v.result.Ok? {
        var done' := done[assignments[0].field := v.result.value];
        FieldsKeeps(n, assignments[1..], done', v.m, fuel);
        KeptTransitive(m.layers, v.m.layers, EvalFields(n, assignments[1..], done', v.m, fuel).m.layers, None);
      }
    }
  }

  lemma {:induction false} CallKeeps(n: Nodes, e: Expr, m: Machine, fuel: nat)
    requires e.FunctionCall? && Valid(m)
    ensures NamesKept(m.layers, EvalNode(n, e, m, fuel).m.layers, None)
    decreases fuel, 0, ExprSize(e), 0
  {
    if e.node in n.resolvedArguments && fuel > 0 {
      var wraps := if e.node in n.iioTypes then n.iioTypes[e.node] else map[];
      var args := EvalArgs(n, wraps, n.resolvedArguments[e.node], [], m, fuel - 1);
      ArgsKeeps(n, wraps, n.resolvedArguments[e.node], [], m, fuel - 1);
      if args.result.Ok? && e.node in n.resolvedCalls {
        InvokeKeeps(n, n.resolvedCalls[e.node], args.result.value, args.m, fuel - 1);
      }
      CallStep(n, e, m, fuel, args);
    } else {
      CallRefused(n, e, m, fuel);
    }
  }

  /** A call checking did not resolve, or with no fuel left, changes nothing. */
  lemma CallRefused(n: Nodes, e: Expr, m: Machine, fuel: nat)
    requires e.FunctionCall? && Valid(m) && (e.node !in n.resolvedArguments || fuel == 0)
    ensures EvalNode(n, e, m, fuel).m == m
  {
  }

  /** The arguments, then the resolved function. */
  lemma CallStep(n: Nodes, e: Expr, m: Machine, fuel: nat, args: Run<seq<Value>>)
    requires e.FunctionCall? && Valid(m) && e.node in n.resolvedArguments && fuel > 0
    requires args == EvalArgs(n, if e.node in n.iioTypes then n.iioTypes[e.node] else map[],
                              n.resolvedArguments[e.node], [], m, fuel - 1)
    requires NamesKept(m.layers, args.m.layers, None)
    requires args.result.Ok? && e.node in n.resolvedCalls ==>
      NamesKept(args.m.layers, Invoke(n, n.resolvedCalls[e.node], args.result.value, args.m, fuel - 1).m.layers, None)
    ensures NamesKept(m.layers, EvalNode(n, e, m, fuel).m.layers, None)
  {
    if args.result.Fail? || e.node !in n.resolvedCalls {
      assert EvalNode(n, e, m, fuel).m == args.m;
    } else {
      var called := Invoke(n, n.resolvedCalls[e.node], args.result.value, args.m, fuel - 1);
      assert EvalNode(n, e, m, fuel) == called;
      KeptTransitive(m.layers, args.m.layers, called.m.layers, None);
    }
  }


  lemma {:induction false} ArgsKeeps(n: Nodes, wraps: map<Expr, Type>, es: seq<Expr>, done: seq<Value>, m: Machine, fuel: nat)
    requires Valid(m)
    ensures NamesKept(m.layers, EvalArgs(n, wraps, es, done, m, fuel).m.layers, None)
    decreases fuel, 0, ExprsSize(es), 3
  {
    if es != [] {
      var v := Eval(n, es[0], m, fuel);
      EvalKeeps(n, es[0], m, fuel);
      if v.result.Ok? {
        var arg := if es[0] in wraps then ToIIO(v.m, wraps[es[0]], v.result.value) else Ok(v.result.value);
        if arg.Ok? {
          ArgsKeeps(n, wraps, es[1..], done + [arg.value], v.m, fuel);
          KeptTransitive(m.layers, v.m.layers, EvalArgs(n, wraps, es[1..], done + [arg.value], v.m, fuel).m.layers, None);
        }
      }
    }
  }

  lemma {:induction false} InvokeKeeps(n: Nodes, f: Function, args: seq<Value>, m: Machine, fuel: nat)
    requires Valid(m)
    ensures NamesKept(m.layers, Invoke(n, f, args, m, fuel).m.layers, None)
    decreases fuel, 2
  {
    match f
    case CustomFunction(_, _, _, _, _, _) => CustomKeeps(n, f, args, m, fuel);
    case InterfaceFunction(_, _, _) => InterfaceKeeps(n, f, args, m, fuel);
    case BuiltInFunction(_, _, _, _) => BuiltInKeeps(n, f, args, m, fuel);
  }

  /** A built-in writes output or takes input, and nothing else. */
  lemma BuiltInKeeps(n: Nodes, f: Function, args: seq<Value>, m: Machine, fuel: nat)
    requires f.BuiltInFunction? && Valid(m)
    ensures Invoke(n, f, args, m, fuel).m.layers == m.layers
  {
  }

  /** An interface stub calls the variant bound for the wrapped type. */
  lemma {:induction false} InterfaceKeeps(n: Nodes, f: Function, args: seq<Value>, m: Machine, fuel: nat)
    requires f.InterfaceFunction? && Valid(m)
    ensures NamesKept(m.layers, Invoke(n, f, args, m, fuel).m.layers, None)
    decreases fuel, 1
  {
    if |args| > 0 && args[0].IIO? && fuel > 0 {
      var argTypes := if |f.arguments| == 0 then [] else ParamTypes(f.arguments[1..]);
      match IIOGetVariant(args[0].functions, args[0].concreteType, f.name, argTypes, RuntimeView(Env(m)))
      case Fail(_) =>
      case Ok(variant) => InvokeKeeps(n, variant, [args[0].value] + args[1..], m, fuel - 1);
    } else {
      InterfaceRefused(n, f, args, m, fuel);
    }
  }

  lemma InterfaceRefused(n: Nodes, f: Function, args: seq<Value>, m: Machine, fuel: nat)
    requires f.InterfaceFunction? && Valid(m) && !(|args| > 0 && args[0].IIO? && fuel > 0)
    ensures Invoke(n, f, args, m, fuel).m == m
  {
  }

  /** A declared function runs in a layer of its own. */
  lemma {:induction false} CustomKeeps(n: Nodes, f: Function, args: seq<Value>, m: Machine, fuel: nat)
    requires f.CustomFunction? && Valid(m)
    ensures NamesKept(m.layers, Invoke(n, f, args, m, fuel).m.layers, None)
    decreases fuel, 1
  {
    if f.declaration !in m.parentScopes {
      assert Invoke(n, f, args, m, fuel).m == m;
    } else {
      var inner := EnterWith(m, m.parentScopes[f.declaration]);
      assert inner.layers[..|m.layers|] == m.layers;
      match BindParams(inner, f.arguments, args)
      case Fail(_) =>
        assert Invoke(n, f, args, m, fuel).m == inner;
      case Ok(bound) =>
        BindParamsKeeps(inner, f.arguments, args);
        var body := ExecAll(n, f.statements, bound, fuel);
        ExecAllKeeps(n, f.statements, bound, fuel);
        KeptTransitive(inner.layers, bound.layers, body.m.layers, TopOf(inner.stack));
        PushedKeeps(m, inner, body.m.layers);
        if body.result.Fail? {
          assert Invoke(n, f, args, m, fuel).m == body.m;
        } else {
          var returned := Eval(n, f.returnExpression, body.m, fuel);
          EvalKeeps(n, f.returnExpression, body.m, fuel);
          assert Invoke(n, f, args, m, fuel).m.layers == returned.m.layers;
          KeptTransitive(m.layers, body.m.layers, returned.m.layers, None);
        }
    }
  }


  lemma {:induction false} BindParamsKeeps(m: Machine, params: seq<Parameter>, args: seq<Value>)
    requires Valid(m) && BindParams(m, params, args).Ok?
    ensures NamesKept(m.layers, BindParams(m, params, args).value.layers, TopOf(m.stack))
    decreases params
  {
    if params != [] {
      var defined := Define(m, params[0].name, args[0]).value;
      DefineKeeps(m, params[0].name, args[0]);
      BindParamsKeeps(defined, params[1..], args[1..]);
      KeptTransitive(m.layers, defined.layers, BindParams(defined, params[1..], args[1..]).value.layers, TopOf(m.stack));
    }
  }

  // -------------------------------------------------------------- statements

  lemma {:induction false} ExecKeeps(n: Nodes, s: Stmt, m: Machine, fuel: nat)
    requires Valid(m)
    ensures NamesKept(m.layers, Exec(n, s, m, fuel).m.layers, TopOf(m.stack))
    decreases fuel, 0, StmtSize(s), 1
  {
    match s
    case ExpressionStatement(e) =>
      EvalKeeps(n, e, m, fuel);
    case VariableDeclaration(name, _, initializer, _) =>
      if initializer.Some? {
        assert StmtSize(s) == 1 + ExprSize(initializer.value);
        var v := Eval(n, initializer.value, m, fuel);
        EvalKeeps(n, initializer.value, m, fuel);
        if v.result.Ok? && Define(v.m, name, v.result.value).Ok? {
          DefineKeeps(v.m, name, v.result.value);
        }
      }
    case VariableAssignment(name, value, _) =>
      var v := Eval(n, value, m, fuel);
      EvalKeeps(n, value, m, fuel);
      if v.result.Ok? && Assign(v.m, name, v.result.value).Ok? {
        AssignKeeps(v.m, name, v.result.value);
        KeptTransitive(m.layers, v.m.layers, Assign(v.m, name, v.result.value).value.layers, None);
      }
    case ForLoop(_, first, _, _) =>
      var inner := Enter(m);
      assert inner.layers[..|m.layers|] == m.layers;
      ForFromKeeps(n, s, first as int, inner, fuel);
      PushedKeeps(m, inner, ForFrom(n, s, first as int, inner, fuel).m.layers);
    case WhileLoop(_, _) =>
      var inner := Enter(m);
      assert inner.layers[..|m.layers|] == m.layers;
      WhileFromKeeps(n, s, inner, fuel);
      PushedKeeps(m, inner, WhileFrom(n, s, inner, fuel).m.layers);
  }

  lemma {:induction false} ExecAllKeeps(n: Nodes, ss: seq<Stmt>, m: Machine, fuel: nat)
    requires Valid(m)
    ensures NamesKept(m.layers, ExecAll(n, ss, m, fuel).m.layers, TopOf(m.stack))
    decreases fuel, 0, StmtsSize(ss), 2
  {
    if ss != [] {
      var first := Exec(n, ss[0], m, fuel);
      ExecKeeps(n, ss[0], m, fuel);
      if first.result.Ok? {
        ExecAllKeeps(n, ss[1..], first.m, fuel);
        KeptTransitive(m.layers, first.m.layers, ExecAll(n, ss[1..], first.m, fuel).m.layers, TopOf(m.stack));
      }
    }
  }

  lemma {:induction false} ForFromKeeps(n: Nodes, s: Stmt, i: int, m: Machine, fuel: nat)
    requires s.ForLoop? && s.first as int <= i && Valid(m)
    ensures NamesKept(m.layers, ForFrom(n, s, i, m, fuel).m.layers, TopOf(m.stack))
    decreases fuel, 0, StmtsSize(s.statements), 3, s.last as int - i + 1
  {
    if i <= s.last as int {
      var pass := ForPass(n, s, i, m, fuel);
      ForPassKeeps(n, s, i, m, fuel);
      if pass.result.Ok? {
        ForFromKeeps(n, s, i + 1, pass.m, fuel);
      }
      ForFromStep(n, s, i, m, fuel, pass);
    }
  }

  /** One pass, then the rest of the loop. */
  lemma ForFromStep(n: Nodes, s: Stmt, i: int, m: Machine, fuel: nat, pass: Run<()>)
    requires s.ForLoop? && s.first as int <= i <= s.last as int && Valid(m)
    requires pass == ForPass(n, s, i, m, fuel) && NamesKept(m.layers, pass.m.layers, TopOf(m.stack))
    requires pass.result.Ok? ==>
      NamesKept(pass.m.layers, ForFrom(n, s, i + 1, pass.m, fuel).m.layers, TopOf(pass.m.stack))
    ensures NamesKept(m.layers, ForFrom(n, s, i, m, fuel).m.layers, TopOf(m.stack))
  {
    if pass.result.Ok? {
      KeptTransitive(m.layers, pass.m.layers, ForFrom(n, s, i + 1, pass.m, fuel).m.layers, TopOf(m.stack));
    }
  }


  lemma {:induction false} ForPassKeeps(n: Nodes, s: Stmt, i: int, m: Machine, fuel: nat)
    requires s.ForLoop? && s.first as int <= i <= s.last as int && Valid(m)
    ensures NamesKept(m.layers, ForPass(n, s, i, m, fuel).m.layers, TopOf(m.stack))
    decreases fuel, 0, StmtsSize(s.statements), 3, 0
  {
    match Define(m, s.iteratorName, IntValue(i as Int32))
    case Fail(_) =>
    case Ok(bound) =>
      DefineKeeps(m, s.iteratorName, IntValue(i as Int32));
      ExecAllKeeps(n, s.statements, bound, fuel);
      KeptTransitive(m.layers, bound.layers, ExecAll(n, s.statements, bound, fuel).m.layers, TopOf(m.stack));
  }

  lemma {:induction false} WhileFromKeeps(n: Nodes, s: Stmt, m: Machine, fuel: nat)
    requires s.WhileLoop? && Valid(m)
    ensures NamesKept(m.layers, WhileFrom(n, s, m, fuel).m.layers, TopOf(m.stack))
    decreases fuel, 0, ExprSize(s.condition) + StmtsSize(s.statements), 3
  {
    var c := Eval(n, s.condition, m, fuel);
    EvalKeeps(n, s.condition, m, fuel);
    if c.result.Ok? && c.result.value == BooleanValue(true) && fuel > 0 {
      var pass := ExecAll(n, s.statements, c.m, fuel);
      ExecAllKeeps(n, s.statements, c.m, fuel);
      if pass.result.Ok? {
        WhileFromKeeps(n, s, pass.m, fuel - 1);
      }
      WhilePassStep(n, s, m, fuel, c, pass);
    } else {
      KeptEverywhere(m.layers, c.m.layers, TopOf(m.stack));
    }
  }

  /** The condition held: one pass, then the rest of the loop. */
  lemma WhilePassStep(n: Nodes, s: Stmt, m: Machine, fuel: nat, c: Run<Value>, pass: Run<()>)
    requires s.WhileLoop? && Valid(m) && fuel > 0
    requires c == Eval(n, s.condition, m, fuel) && c.result == Ok(BooleanValue(true))
    requires NamesKept(m.layers, c.m.layers, None)
    requires pass == ExecAll(n, s.statements, c.m, fuel) && NamesKept(c.m.layers, pass.m.layers, TopOf(c.m.stack))
    requires pass.result.Ok? ==>
      NamesKept(pass.m.layers, WhileFrom(n, s, pass.m, fuel - 1).m.layers, TopOf(pass.m.stack))
    ensures NamesKept(m.layers, WhileFrom(n, s, m, fuel).m.layers, TopOf(m.stack))
  {
    KeptEverywhere(m.layers, c.m.layers, TopOf(m.stack));
    KeptTransitive(m.layers, c.m.layers, pass.m.layers, TopOf(m.stack));
    if pass.result.Ok? {
      KeptTransitive(m.layers, pass.m.layers, WhileFrom(n, s, pass.m, fuel - 1).m.layers, TopOf(m.stack));
    }
  }


  // ------------------------------------------------------ declarations, files

  lemma {:induction false} DefineAllKeeps(m: Machine, fs: seq<Function>)
    requires Valid(m) && DefineAll(m, fs).Ok?
    ensures NamesKept(m.layers, DefineAll(m, fs).value.layers, TopOf(m.stack))
    decreases fs
  {
    if fs != [] {
      var defined := DefineFunction(m, fs[0].name, fs[0]).value;
      DefineFunctionKeeps(m, fs[0].name, fs[0]);
      DefineAllKeeps(defined, fs[1..]);
      KeptTransitive(m.layers, defined.layers, DefineAll(defined, fs[1..]).value.layers, TopOf(m.stack));
    }
  }

  lemma {:induction false} DefineStubsKeeps(m: Machine, stubs: seq<Function>)
    requires Valid(m) && DefineStubs(m, stubs).Ok?
    ensures NamesKept(m.layers, DefineStubs(m, stubs).value.layers, TopOf(m.stack))
    decreases stubs
  {
    if stubs != [] {
      var defined := DefineFunction(m, stubs[0].name, stubs[0]).value;
      DefineFunctionKeeps(m, stubs[0].name, stubs[0]);
      DefineStubsKeeps(defined, stubs[1..]);
      KeptTransitive(m.layers, defined.layers, DefineStubs(defined, stubs[1..]).value.layers, TopOf(m.stack));
    }
  }

  lemma {:induction false} TypesKeep(n: Nodes, types: seq<TypeDeclaration>, m: Machine)
    requires Valid(m) && EvalTypes(n, types, m).Ok?
    ensures NamesKept(m.layers, EvalTypes(n, types, m).value.layers, TopOf(m.stack))
  {
    if types != [] {
      var declared := m;
      if types[0].InterfaceDeclaration? {
        var node := types[0].node;
        var stubs := if node in n.completeFunctions then n.completeFunctions[node] else [];
        declared := DefineStubs(m, stubs).value;
        DefineStubsKeeps(m, stubs);
      }
      assert EvalTypes(n, types, m) == EvalTypes(n, types[1..], declared);
      TypesKeep(n, types[1..], declared);
      KeptTransitive(m.layers, declared.layers, EvalTypes(n, types[1..], declared).value.layers, TopOf(m.stack));
    }
  }

  lemma {:induction false} FunctionsKeep(n: Nodes, ds: seq<FunctionDeclaration>, m: Machine)
    requires Valid(m) && EvalFunctions(n, ds, m).Ok?
    ensures NamesKept(m.layers, EvalFunctions(n, ds, m).value.layers, TopOf(m.stack))
  {
    if ds != [] {
      var f := n.declaredFunctions[ds[0].node];
      var captured := m.(parentScopes := m.parentScopes[ds[0].node := m.stack[|m.stack| - 1]]);
      var declared := EvalFunctionDeclaration(n, ds[0], m).value;
      DefineFunctionKeeps(captured, f.name, f);
      FunctionsKeep(n, ds[1..], declared);
      KeptTransitive(m.layers, declared.layers, EvalFunctions(n, ds[1..], declared).value.layers, TopOf(m.stack));
    }
  }

  lemma {:induction false} ExportValuesKeeps(m: Machine, current: nat, ids: seq<string>)
    requires Valid(m) && current < |m.layers| && ExportValues(m, current, ids).Ok?
    ensures NamesKept(m.layers, ExportValues(m, current, ids).value.layers, Some(current))
    decreases ids
  {
    if ids != [] {
      var next := SetIn(m, current, ids[0], Env(m)[ids[0]]);
      SetInKeeps(m, current, ids[0], Env(m)[ids[0]]);
      ExportValuesKeeps(next, current, ids[1..]);
      KeptTransitive(m.layers, next.layers, ExportValues(next, current, ids[1..]).value.layers, Some(current));
    }
  }

  lemma {:induction false} FileKeeps(n: Nodes, file: SourceFile, m: Machine, fuel: nat)
    requires Valid(m)
    ensures NamesKept(m.layers, EvalFile(n, file, m, fuel).m.layers, TopOf(m.stack))
    decreases fuel, 1, 0, 0
  {
    match DefineAll(m, Functions)
    case Fail(_) =>
    case Ok(withBuiltIns) =>
      DefineAllKeeps(m, Functions);
      var imported := EvalImports(n, file.imports, withBuiltIns, fuel);
      ImportsKeep(n, file.imports, withBuiltIns, fuel);
      KeptTransitive(m.layers, withBuiltIns.layers, imported.m.layers, TopOf(m.stack));
      if imported.result.Ok? {
        match EvalTypes(n, file.types, imported.m)
        case Fail(_) =>
        case Ok(typed) =>
          TypesKeep(n, file.types, imported.m);
          KeptTransitive(m.layers, imported.m.layers, typed.layers, TopOf(m.stack));
          match EvalFunctions(n, file.functions, typed)
          case Fail(_) =>
          case Ok(declared) =>
            FunctionsKeep(n, file.functions, typed);
            KeptTransitive(m.layers, typed.layers, declared.layers, TopOf(m.stack));
            ExecAllKeeps(n, file.statements, declared, fuel);
            KeptTransitive(m.layers, declared.layers, ExecAll(n, file.statements, declared, fuel).m.layers, TopOf(m.stack));
      }
  }

  lemma {:induction false} ImportsKeep(n: Nodes, imports: seq<ImportDeclaration>, m: Machine, fuel: nat)
    requires Valid(m)
    ensures NamesKept(m.layers, EvalImports(n, imports, m, fuel).m.layers, TopOf(m.stack))
    decreases fuel, 0, |imports|, 0
  {
    if imports != [] {
      var first := EvalImport(n, imports[0], m, fuel);
      ImportKeeps(n, imports[0], m, fuel);
      if first.result.Ok? {
        ImportsKeep(n, imports[1..], first.m, fuel);
        KeptTransitive(m.layers, first.m.layers, EvalImports(n, imports[1..], first.m, fuel).m.layers, TopOf(m.stack));
      }
    }
  }

  lemma {:induction false} ImportKeeps(n: Nodes, imp: ImportDeclaration, m: Machine, fuel: nat)
    requires Valid(m)
    ensures NamesKept(m.layers, EvalImport(n, imp, m, fuel).m.layers, TopOf(m.stack))
    decreases fuel, 0, 0, 1
  {
    if |m.stack| > 0 {
      var pushed := EnterWith(NewLayer(m), |m.layers|);
      assert pushed.layers[..|m.layers|] == m.layers;
      ImportPathKeeps(n, imp, m.stack[|m.stack| - 1], |m.layers|, pushed, fuel);
    }
  }

  /** The file's layer and everything above it are at `base` or later; below
      it, only the importer's layer `current` gains names. */
  lemma {:induction false} ImportPathKeeps(n: Nodes, imp: ImportDeclaration, current: nat, base: nat, m: Machine, fuel: nat)
    requires Valid(m) && current < base <= |m.layers| && |m.stack| > 0 && m.stack[|m.stack| - 1] >= base
    ensures NamesKept(m.layers[..base], ImportPath(n, imp, current, m, fuel).m.layers, Some(current))
    decreases fuel, 0, 0, 0
  {
    if imp.filePath in n.sourceFiles && fuel > 0 {
      ImportFileKeeps(n, n.sourceFiles[imp.filePath], current, base, imp.ids, m, fuel - 1);
    }
  }

  lemma {:induction false} ImportFileKeeps(n: Nodes, file: SourceFile, current: nat, base: nat, ids: seq<string>, m: Machine, fuel: nat)
    requires Valid(m) && current < base <= |m.layers| && |m.stack| > 0 && m.stack[|m.stack| - 1] >= base
    ensures NamesKept(m.layers[..base], ImportFile(n, file, current, ids, m, fuel).m.layers, Some(current))
    decreases fuel, 2, 0, 0
  {
    var ran := EvalFile(n, file, m, fuel);
    FileKeeps(n, file, m, fuel);
    KeptBelow(m.layers, ran.m.layers, TopOf(m.stack), base);
    KeptEverywhere(m.layers[..base], ran.m.layers, Some(current));
    if ran.result.Ok? && ExportValues(ran.m, current, ids).Ok? {
      ExportValuesKeeps(ran.m, current, ids);
      KeptTransitive(m.layers[..base], ran.m.layers, ExportValues(ran.m, current, ids).value.layers, Some(current));
    }
  }

  // ---------------------------------------------------------- what is seen

  /** A lookup of `id` stops at the same layer when every layer keeps its parent
      and whether it binds `id`. */
  lemma {:induction false} SameOwner(before: seq<Layer<Value>>, after: seq<Layer<Value>>, j: nat, id: string)
    requires WellFormed(before) && WellFormed(after) && j < |before| <= |after|
    requires forall k :: 0 <= k < |before| ==>
               after[k].parent == before[k].parent && (id in after[k].bindings <==> id in before[k].bindings)
    ensures Owner(after, j, id) == Owner(before, j, id)
    decreases j
  {
    if id !in before[j].bindings && before[j].parent.Some? {
      SameOwner(before, after, before[j].parent.value, id);
    }
  }

  /** Kept names make the same names visible from every old layer. */
  lemma KeptVisibleNames(before: seq<Layer<Value>>, after: seq<Layer<Value>>, top: nat)
    requires WellFormed(before) && WellFormed(after) && NamesKept(before, after, None) && top < |before|
    ensures Visible(after, Some(top)).Keys == Visible(before, Some(top)).Keys
  {
    forall id
      ensures id in Visible(after, Some(top)) <==> id in Visible(before, Some(top))
    {
      SameOwner(before, after, top, id);
    }
  }

  /** The same stack over kept names sees the same names. */
  lemma KeptEnvNames(m: Machine, m': Machine)
    requires Valid(m) && Valid(m') && m'.stack == m.stack && NamesKept(m.layers, m'.layers, None)
    ensures Env(m').Keys == Env(m).Keys
  {
    if |m.stack| > 0 {
      KeptVisibleNames(m.layers, m'.layers, m.stack[|m.stack| - 1]);
    }
  }

  /** A finished call leaves the caller seeing exactly the names it saw: the
      parameters and locals of the callee live in the call's own layer and go
      with it. */
  lemma InvokeKeepsCallerNames(n: Nodes, f: Function, args: seq<Value>, m: Machine, fuel: nat)
    requires Valid(m)
    ensures Invoke(n, f, args, m, fuel).result.Ok? ==> Env(Invoke(n, f, args, m, fuel).m).Keys == Env(m).Keys
  {
    var r := Invoke(n, f, args, m, fuel);
    InvokeKeeps(n, f, args, m, fuel);
    if r.result.Ok? {
      KeptEnvNames(m, r.m);
    }
  }

  /** No expression adds or removes a name its evaluator can see: a block's
      `let`s, a loop's iterator and a callee's locals are all gone once it
      finishes. */
  lemma ExpressionKeepsNames(n: Nodes, e: Expr, m: Machine, fuel: nat)
    requires Valid(m)
    ensures Eval(n, e, m, fuel).result.Ok? ==> Env(Eval(n, e, m, fuel).m).Keys == Env(m).Keys
  {
    var r := Eval(n, e, m, fuel);
    EvalKeeps(n, e, m, fuel);
    if r.result.Ok? {
      KeptEnvNames(m, r.m);
    }
  }

  /** `after` sees exactly the names `before` saw and the listed ones, each
      listed name with the value `source` saw for it. */
  ghost predicate ListedNamesAdded(before: Machine, after: Machine, source: Machine, ids: seq<string>)
  {
    Valid(before) && Valid(after) && Valid(source)
    && Env(after).Keys == Env(before).Keys + (set id | id in ids)
    && forall id :: id in ids ==> id in Env(source) && Env(after)[id] == Env(source)[id]
  }

  /** `ran` ran on a fresh parentless layer pushed over `m` and kept the names
      below it. */
  ghost predicate RanOnFresh(m: Machine, ran: Machine)
  {
    match TopOf(m.stack)
    case None => false
    case Some(_) =>
      Valid(m) && Valid(ran)
      && ran.stack == EnterWith(NewLayer(m), |m.layers|).stack
      && NamesKept(EnterWith(NewLayer(m), |m.layers|).layers, ran.layers, TopOf(EnterWith(NewLayer(m), |m.layers|).stack))
  }

  /** `r` is `m`'s stack over `ran`'s layers with the listed names copied into
      `m`'s top layer. */
  ghost predicate CopiedInto(m: Machine, ran: Machine, r: Machine, ids: seq<string>)
  {
    match TopOf(m.stack)
    case None => false
    case Some(current) =>
      Valid(m) && Valid(ran) && Valid(r) && r.stack == m.stack && |m.layers| <= |ran.layers|
      && ExportValues(ran, current, ids).Ok?
      && r.layers == ExportValues(ran, current, ids).value.layers
  }

  /** A finished import adds to what the importer sees exactly the listed names,
      each with the value the imported file's own top layer saw at its end. */
  lemma ImportAddsListedNames(n: Nodes, imp: ImportDeclaration, m: Machine, fuel: nat)
    requires Valid(m)
    ensures EvalImport(n, imp, m, fuel).result.Ok? ==>
      |m.stack| > 0 && imp.filePath in n.sourceFiles && fuel > 0
      && ListedNamesAdded(m, EvalImport(n, imp, m, fuel).m,
                          EvalFile(n, n.sourceFiles[imp.filePath], EnterWith(NewLayer(m), |m.layers|), fuel - 1).m,
                          imp.ids)
  {
    if EvalImport(n, imp, m, fuel).result.Ok? {
      ImportCopiesNames(n, imp, m, fuel);
      CopiedNamesAdded(m, EvalFile(n, n.sourceFiles[imp.filePath], EnterWith(NewLayer(m), |m.layers|), fuel - 1).m,
                       EvalImport(n, imp, m, fuel).m, imp.ids);
    }
  }

  /** A finished import is a run of the file on a fresh layer and a copy of
      the listed names. Each half is its own lemma, so that neither proof sees
      the other's unfolding of the evaluator. */
  lemma ImportCopiesNames(n: Nodes, imp: ImportDeclaration, m: Machine, fuel: nat)
    requires Valid(m) && EvalImport(n, imp, m, fuel).result.Ok?
    ensures |m.stack| > 0 && imp.filePath in n.sourceFiles && fuel > 0
    ensures RanOnFresh(m, EvalFile(n, n.sourceFiles[imp.filePath], EnterWith(NewLayer(m), |m.layers|), fuel - 1).m)
    ensures CopiedInto(m, EvalFile(n, n.sourceFiles[imp.filePath], EnterWith(NewLayer(m), |m.layers|), fuel - 1).m,
                       EvalImport(n, imp, m, fuel).m, imp.ids)
  {
    ImportRanFresh(n, imp, m, fuel);
    ImportCopiedInto(n, imp, m, fuel);
  }

  /** A finished import ran its file to the end on a fresh layer. */
  lemma ImportRanFresh(n: Nodes, imp: ImportDeclaration, m: Machine, fuel: nat)
    requires Valid(m) && EvalImport(n, imp, m, fuel).result.Ok?
    ensures |m.stack| > 0 && imp.filePath in n.sourceFiles && fuel > 0
    ensures RanOnFresh(m, EvalFile(n, n.sourceFiles[imp.filePath], EnterWith(NewLayer(m), |m.layers|), fuel - 1).m)
  {
    ImportRanFile(n, imp, m, fuel);
    FileRunsFresh(n, n.sourceFiles[imp.filePath], m, fuel - 1);
  }

  /** A finished import finished the run of its file. */
  lemma ImportRanFile(n: Nodes, imp: ImportDeclaration, m: Machine, fuel: nat)
    requires Valid(m) && EvalImport(n, imp, m, fuel).result.Ok?
    ensures |m.stack| > 0 && imp.filePath in n.sourceFiles && fuel > 0
    ensures EvalFile(n, n.sourceFiles[imp.filePath], EnterWith(NewLayer(m), |m.layers|), fuel - 1).result.Ok?
  {
    ImportShape(n, imp, m, fuel);
  }

  /** A finished import copied the listed names into the importer's layer. */
  lemma ImportCopiedInto(n: Nodes, imp: ImportDeclaration, m: Machine, fuel: nat)
    requires Valid(m) && EvalImport(n, imp, m, fuel).result.Ok?
    ensures |m.stack| > 0 && imp.filePath in n.sourceFiles && fuel > 0
    ensures CopiedInto(m, EvalFile(n, n.sourceFiles[imp.filePath], EnterWith(NewLayer(m), |m.layers|), fuel - 1).m,
                       EvalImport(n, imp, m, fuel).m, imp.ids)
  {
    ImportShape(n, imp, m, fuel);
  }

  /** A finished run of a file on a fresh layer keeps the names below it. */
  lemma FileRunsFresh(n: Nodes, file: SourceFile, m: Machine, fuel: nat)
    requires Valid(m) && |m.stack| > 0 && EvalFile(n, file, EnterWith(NewLayer(m), |m.layers|), fuel).result.Ok?
    ensures RanOnFresh(m, EvalFile(n, file, EnterWith(NewLayer(m), |m.layers|), fuel).m)
  {
    FileKeeps(n, file, EnterWith(NewLayer(m), |m.layers|), fuel);
  }

  /** Such a copy adds exactly the listed names to what the importer sees. */
  lemma CopiedNamesAdded(m: Machine, ran: Machine, r: Machine, ids: seq<string>)
    requires RanOnFresh(m, ran) && CopiedInto(m, ran, r, ids)
    ensures ListedNamesAdded(m, r, ran, ids)
  {
    ExportedNames(m, ran, r, ids);
  }

  /** A finished import ran the file on a fresh parentless layer under the
      importer's and copied every listed name into the importer's layer. */
  lemma ImportShape(n: Nodes, imp: ImportDeclaration, m: Machine, fuel: nat)
    requires Valid(m)
    ensures EvalImport(n, imp, m, fuel).result.Ok? ==>
      |m.stack| > 0 && imp.filePath in n.sourceFiles && fuel > 0
      && var ran := EvalFile(n, n.sourceFiles[imp.filePath], EnterWith(NewLayer(m), |m.layers|), fuel - 1);
         var current := m.stack[|m.stack| - 1];
         ran.result.Ok? && ExportValues(ran.m, current, imp.ids).Ok?
         && EvalImport(n, imp, m, fuel).m.layers == ExportValues(ran.m, current, imp.ids).value.layers
         && EvalImport(n, imp, m, fuel).m.stack == m.stack
  {
    var run := EvalImport(n, imp, m, fuel);
    if run.result.Ok? {
      var current := m.stack[|m.stack| - 1];
      var pushed := EnterWith(NewLayer(m), |m.layers|);
      assert run == ImportPath(n, imp, current, pushed, fuel);
      assert run == ImportFile(n, n.sourceFiles[imp.filePath], current, imp.ids, pushed, fuel - 1);
    }
  }

  /** Exporting into a layer off the view succeeds only when every name is
      seen, and then adds exactly those names with the values seen. */
  lemma ExportedLayers(m: Machine, current: nat, ids: seq<string>)
    requires Valid(m) && current < |m.layers| && OffView(m, current) && ExportValues(m, current, ids).Ok?
    ensures forall id :: id in ids ==> id in Env(m)
    ensures ExportValues(m, current, ids).value.layers
            == m.layers[current := Layer(m.layers[current].bindings + Exports(ids, Env(m)), m.layers[current].parent)]
  {
  }

  /** Whatever runs on a fresh parentless layer under the importer's, keeping
      names below its own layer, cannot see the importer's layer. */
  lemma FreshLayerOffView(m: Machine, after: Machine)
    requires Valid(m) && |m.stack| > 0 && Valid(after)
    requires var pushed := EnterWith(NewLayer(m), |m.layers|);
      after.stack == pushed.stack && NamesKept(pushed.layers, after.layers, TopOf(pushed.stack))
    ensures OffView(after, m.stack[|m.stack| - 1]) && NamesKept(m.layers, after.layers, None)
  {
    var base := |m.layers|;
    var pushed := EnterWith(NewLayer(m), base);
    KeptBelow(pushed.layers, after.layers, TopOf(pushed.stack), base);
    assert pushed.layers[..base] == m.layers;
    ChainOfKeptParents(pushed.layers, after.layers, base + 1);
    assert Chain(pushed.layers, base) == [base];
    assert Chain(pushed.layers, base + 1) == [base + 1, base];
  }

  /** Copying listed names into the importer's layer, after a run on a fresh
      layer that kept the names below it, makes the importer see exactly those
      names more. */
  lemma ExportedNames(m: Machine, ran: Machine, r: Machine, ids: seq<string>)
    requires Valid(m) && Valid(ran) && Valid(r) && |m.stack| > 0 && r.stack == m.stack
    requires var pushed := EnterWith(NewLayer(m), |m.layers|);
      ran.stack == pushed.stack && NamesKept(pushed.layers, ran.layers, TopOf(pushed.stack))
    requires ExportValues(ran, m.stack[|m.stack| - 1], ids).Ok?
    requires r.layers == ExportValues(ran, m.stack[|m.stack| - 1], ids).value.layers
    ensures forall id :: id in ids ==> id in Env(ran)
    ensures Env(r).Keys == Env(m).Keys + (set id | id in ids)
    ensures forall id :: id in ids ==> Env(r)[id] == Env(ran)[id]
  {
    FreshLayerOffView(m, ran);
    ExportedLayers(ran, m.stack[|m.stack| - 1], ids);
    forall id | id in ids
      ensures id in Env(r) && Env(r)[id] == Env(ran)[id]
    {
      ExportedNameSeen(m, ran, r, ids, id);
    }
    forall id | id !in ids
      ensures id in Env(r) <==> id in Env(m)
    {
      UnlistedNameSame(m, ran, r, ids, id);
    }
  }

  lemma UnlistedNameSame(m: Machine, ran: Machine, r: Machine, ids: seq<string>, id: string)
    requires Valid(m) && Valid(ran) && Valid(r) && |m.stack| > 0 && r.stack == m.stack
    requires NamesKept(m.layers, ran.layers, None) && id !in ids
    requires var current := m.stack[|m.stack| - 1];
      r.layers == ran.layers[current := Layer(ran.layers[current].bindings + Exports(ids, Env(ran)),
                                               ran.layers[current].parent)]
    ensures id in Env(r) <==> id in Env(m)
  {
    SameOwner(m.layers, r.layers, m.stack[|m.stack| - 1], id);
  }

  lemma ExportedNameSeen(m: Machine, ran: Machine, r: Machine, ids: seq<string>, id: string)
    requires Valid(m) && Valid(ran) && Valid(r) && |m.stack| > 0 && r.stack == m.stack
    requires |m.layers| <= |ran.layers| && id in ids && id in Env(ran)
    requires var current := m.stack[|m.stack| - 1];
      r.layers == ran.layers[current := Layer(ran.layers[current].bindings + Exports(ids, Env(ran)),
                                               ran.layers[current].parent)]
    ensures id in Env(r) && Env(r)[id] == Env(ran)[id]
  {
    assert Owner(r.layers, m.stack[|m.stack| - 1], id) == Some(m.stack[|m.stack| - 1]);
  }
}
