/** What the evaluation rules promise about particular kinds of node: literals
    evaluate to themselves, brackets and casts are transparent, `if` evaluates
    exactly one branch, `match` takes the first equal pattern or the else value,
    a block's `let` does not outlive the block, and the two loops accumulate as
    their passes say. The examples of the interpreter's tests are instances. */
module EvalProperties {
  import opened Wrappers
  import opened KotlinInt
  import opened Syntax
  import opened BuiltIns
  import opened Scopes
  import opened Values
  import opened Runtime
  import opened Semantics

  // ------------------------------------------------------------ expressions

  predicate IsLiteral(e: Expr)
  {
    e.IntLiteral? || e.BooleanLiteral? || e.StringLiteral? || e.SymbolLiteral?
  }

  /** The value a literal stands for: a symbol stands for its own type. */
  function LiteralValue(e: Expr): Value
    requires IsLiteral(e)
  {
    match e
    case IntLiteral(i) => IntValue(i)
    case BooleanLiteral(b) => BooleanValue(b)
    case StringLiteral(text) => StringValue(text)
    case SymbolLiteral(symbol) => TypeValue(SymbolType(symbol))
  }

  /** A literal evaluates to its value and touches nothing. */
  lemma LiteralEvaluatesToItself(n: Nodes, e: Expr, m: Machine, fuel: nat)
    requires IsLiteral(e) && Valid(m)
    ensures Eval(n, e, m, fuel) == Run(Ok(LiteralValue(e)), m)
  {
  }

  /** Brackets and casts give the inner expression's value, with no runtime
      check of the cast. */
  lemma BracketAndCastAreTransparent(n: Nodes, inner: Expr, t: TypeAnnotation, m: Machine, fuel: nat)
    requires Valid(m)
    ensures Eval(n, BracketExpression(inner), m, fuel) == Eval(n, inner, m, fuel)
    ensures Eval(n, TypeCast(inner, t), m, fuel) == Eval(n, inner, m, fuel)
  {
  }

  /** `!` is the logical not of a Boolean operand; any other value is a failed
      cast, and an exception of the operand is passed on. */
  lemma NegationNegates(n: Nodes, operand: Expr, m: Machine, fuel: nat)
    requires Valid(m)
    ensures var o := Eval(n, operand, m, fuel);
      var r := Eval(n, Negation(operand), m, fuel);
      r.m == o.m
      && (o.result.Ok? && o.result.value.BooleanValue? ==> r.result == Ok(BooleanValue(!o.result.value.b)))
      && (o.result.Ok? && !o.result.value.BooleanValue? ==> r.result == Fail(CastFailure))
      && (o.result.Fail? ==> r.result == o.result)
  {
    var e := Negation(operand);
    assert Eval(n, e, m, fuel) == EvalNegation(n, e, m, fuel);
  }

  /** `if` evaluates the condition, then exactly the branch it selects, from the
      state the condition left. */
  lemma IfTakesOneBranch(n: Nodes, c: Expr, t: Expr, f: Expr, m: Machine, fuel: nat)
    requires Valid(m)
    ensures var cond := Eval(n, c, m, fuel);
      var r := Eval(n, IfExpression(c, t, f), m, fuel);
      (cond.result == Ok(BooleanValue(true)) ==> r == Eval(n, t, cond.m, fuel))
      && (cond.result == Ok(BooleanValue(false)) ==> r == Eval(n, f, cond.m, fuel))
      && (cond.result.Ok? && !cond.result.value.BooleanValue? ==> r == Run(Fail(CastFailure), cond.m))
      && (cond.result.Fail? ==> r.result == cond.result)
  {
    var e := IfExpression(c, t, f);
    assert Eval(n, e, m, fuel) == EvalIf(n, e, m, fuel);
  }

  /** With literal patterns none of which equals the scrutinee, `match` gives
      the else value. */
  lemma {:induction false} NoEqualPatternGivesElse(n: Nodes, v: Value, cases: seq<MatchCase>, elseValue: Expr,
                                                   m: Machine, fuel: nat)
    requires Valid(m)
    requires forall i :: 0 <= i < |cases| ==> IsLiteral(cases[i].pattern) && LiteralValue(cases[i].pattern) != v
    ensures EvalCases(n, v, cases, elseValue, m, fuel) == Eval(n, elseValue, m, fuel)
    decreases |cases|
  {
    if cases != [] {
      LiteralEvaluatesToItself(n, cases[0].pattern, m, fuel);
      NoEqualPatternGivesElse(n, v, cases[1..], elseValue, m, fuel);
    }
  }

  /** With literal patterns, the first one equal to the scrutinee selects the
      result; the patterns after it are never evaluated. */
  lemma {:induction false} FirstEqualPatternWins(n: Nodes, v: Value, cases: seq<MatchCase>, elseValue: Expr,
                                                 m: Machine, fuel: nat, k: nat)
    requires Valid(m) && k < |cases|
    requires forall i :: 0 <= i <= k ==> IsLiteral(cases[i].pattern)
    requires forall i :: 0 <= i < k ==> LiteralValue(cases[i].pattern) != v
    requires LiteralValue(cases[k].pattern) == v
    ensures EvalCases(n, v, cases, elseValue, m, fuel) == Eval(n, cases[k].result, m, fuel)
    decreases k
  {
    LiteralEvaluatesToItself(n, cases[0].pattern, m, fuel);
    if k > 0 {
      FirstEqualPatternWins(n, v, cases[1..], elseValue, m, fuel, k - 1);
    }
  }

  /** A `let` inside a block gives its value to the block's tail, and once the
      block's layer is popped everything `get` sees is as before the block:
      an outer binding of the same name is unchanged, and a name the block
      introduced is unknown again. */
  lemma BlockLetIsLocal(n: Nodes, x: string, i: Int32, loc: Loc, m: Machine, fuel: nat)
    requires Valid(m)
    ensures var block := ExpressionBlock([VariableDeclaration(x, None, Some(IntLiteral(i)), loc)], IdExpression(x, loc));
      var r := Eval(n, block, m, fuel);
      r.result == Ok(IntValue(i)) && Env(r.m) == Env(m)
  {
    var after := BlockLetRuns(n, x, i, loc, m, fuel);
    if |m.stack| > 0 {
      var top := m.stack[|m.stack| - 1];
      var inner := Enter(m);
      var bound := Define(inner, x, IntValue(i)).value;
      var pushed := m.layers + [Layer(map[], Some(top))];
      assert inner.layers == pushed;
      assert bound.layers == Bind(pushed, |m.layers|, x, IntValue(i));
      ExtendsKeepsVisible(m.layers, pushed, top);
      BindOffChainVisible(pushed, top, |m.layers|, x, IntValue(i));
    }
  }

  /** The block of `BlockLetIsLocal` runs as: push a layer, bind `x`, read it
      back, pop the layer. */
  lemma BlockLetRuns(n: Nodes, x: string, i: Int32, loc: Loc, m: Machine, fuel: nat) returns (after: Machine)
    requires Valid(m)
    ensures Define(Enter(m), x, IntValue(i)).Ok? && Leave(Define(Enter(m), x, IntValue(i)).value).Ok?
    ensures after == Leave(Define(Enter(m), x, IntValue(i)).value).value
    ensures var block := ExpressionBlock([VariableDeclaration(x, None, Some(IntLiteral(i)), loc)], IdExpression(x, loc));
      Eval(n, block, m, fuel) == Run(Ok(IntValue(i)), after)
  {
    var decl := VariableDeclaration(x, None, Some(IntLiteral(i)), loc);
    var block := ExpressionBlock([decl], IdExpression(x, loc));
    var inner := Enter(m);
    var bound := Define(inner, x, IntValue(i)).value;
    LiteralEvaluatesToItself(n, IntLiteral(i), inner, fuel);
    assert Exec(n, decl, inner, fuel) == Run(Ok(()), bound);
    assert ExecAll(n, [decl], inner, fuel) == Run(Ok(()), bound);
    assert Eval(n, IdExpression(x, loc), bound, fuel) == Run(Ok(IntValue(i)), bound);
    after := Leave(bound).value;
    assert Popped(Run(Ok(IntValue(i)), bound)) == Run(Ok(IntValue(i)), after);
    assert Eval(n, block, m, fuel) == EvalBlock(n, block, m, fuel);
  }

  // ------------------------------------------------------------------ loops

  /** The sum of the integers from `i` to `last`, both included. */
  function RangeSum(i: int, last: int): (s: int)
    ensures 0 <= i ==> 0 <= s
    decreases if i <= last then last - i + 1 else 0
  {
    if i > last then 0 else i + RangeSum(i + 1, last)
  }

  /** `e` is a name bound to the integer `a`, or the literal `a`. */
  predicate IntOperand(e: Expr, m: Machine, a: Int32)
    requires Valid(m)
  {
    e == IntLiteral(a) || (e.IdExpression? && e.id in Env(m) && Env(m)[e.id] == IntValue(a))
  }

  /** An integer operand evaluates to its integer and touches nothing. */
  lemma OperandEvaluates(n: Nodes, e: Expr, m: Machine, fuel: nat, a: Int32)
    requires Valid(m) && IntOperand(e, m, a)
    ensures Eval(n, e, m, fuel) == Run(Ok(IntValue(a)), m)
  {
    assert Eval(n, e, m, fuel) == EvalNode(n, e, m, fuel);
  }

  /** Two integer operands are read left to right and give their integers. */
  lemma OperandsEvaluate(n: Nodes, left: Expr, right: Expr, m: Machine, fuel: nat, a: Int32, b: Int32)
    requires Valid(m) && IntOperand(left, m, a) && IntOperand(right, m, b)
    ensures EvalInts(n, left, right, m, fuel) == Run(Ok((a, b)), m)
  {
    OperandEvaluates(n, left, m, fuel, a);
    OperandEvaluates(n, right, m, fuel, b);
  }

  /** `-`, `*`, `%`, `<` and `<=` on integer operands give the operator's
      outcome on those integers, and nothing changes. */
  lemma OperatorOnInts(n: Nodes, e: Expr, m: Machine, fuel: nat, a: Int32, b: Int32)
    requires e.Subtraction? || e.Multiplication? || e.Mod? || e.LesserThan? || e.LesserEqual?
    requires Valid(m) && IntOperand(e.left, m, a) && IntOperand(e.right, m, b)
    ensures Eval(n, e, m, fuel) == Run(IntOperator(e, a, b), m)
  {
    OperandsEvaluate(n, e.left, e.right, m, fuel, a, b);
    assert Eval(n, e, m, fuel) == EvalOperator(n, e, m, fuel);
  }

  /** `+` resolved to integers on integer operands gives the wrapped sum, and
      nothing changes. */
  lemma AdditionOnInts(n: Nodes, e: Expr, m: Machine, fuel: nat, a: Int32, b: Int32)
    requires e.Addition? && e.node in n.resolvedTypes && n.resolvedTypes[e.node] == IntegerType
    requires Valid(m) && IntOperand(e.left, m, a) && IntOperand(e.right, m, b)
    ensures Eval(n, e, m, fuel) == Run(Ok(IntValue(Plus(a, b))), m)
  {
    OperandsEvaluate(n, e.left, e.right, m, fuel, a, b);
    assert Eval(n, e, m, fuel) == EvalAddition(n, e, m, fuel);
  }

  /** A lone assignment whose value evaluates to `v` without side effects
      rebinds the name where it is owned. */
  lemma AssignmentOfValue(n: Nodes, stmt: Stmt, m: Machine, fuel: nat, v: Value)
    requires Valid(m) && stmt.VariableAssignment? && stmt.name in Env(m)
    requires Eval(n, stmt.value, m, fuel) == Run(Ok(v), m)
    ensures Assign(m, stmt.name, v).Ok?
    ensures ExecAll(n, [stmt], m, fuel) == Run(Ok(()), Assign(m, stmt.name, v).value)
  {
    assert Exec(n, stmt, m, fuel) == Run(Ok(()), Assign(m, stmt.name, v).value);
  }

  /** Inside a loop: the top layer was pushed on layer `t` and binds only names
      in `locals`. The code around the loop sees `Visible(m.layers, Some(t))`. */
  predicate InLoopLayer(m: Machine, t: nat, locals: set<string>)
  {
    Valid(m) && |m.stack| > 0 && t < m.stack[|m.stack| - 1]
    && m.layers[m.stack[|m.stack| - 1]].parent == Some(t)
    && m.layers[m.stack[|m.stack| - 1]].bindings.Keys <= locals
  }

  /** Looking up any name from layer `t` gives what `env` binds it to: the
      pointwise form of `Visible(layers, Some(t)) == env`. */
  ghost predicate SeesFrom(layers: seq<Layer<Value>>, t: nat, env: map<string, Value>)
    requires WellFormed(layers) && t < |layers|
  {
    forall id :: Lookup(layers, t, id) == (if id in env then Some(env[id]) else None)
  }

  lemma SeesFromVisible(layers: seq<Layer<Value>>, t: nat, env: map<string, Value>)
    requires WellFormed(layers) && t < |layers|
    ensures SeesFrom(layers, t, env) <==> Visible(layers, Some(t)) == env
  {
    var view := Visible(layers, Some(t));
    if SeesFrom(layers, t, env) {
      assert forall id :: id in view <==> Lookup(layers, t, id).Some?;
      assert view.Keys == env.Keys;
      assert forall id :: id in view ==> Some(view[id]) == Lookup(layers, t, id);
    }
  }

  /** A second update of the same key overrides the first. */
  lemma UpdateTwice(env: map<string, Value>, id: string, x: Value, y: Value)
    ensures env[id := x][id := y] == env[id := y]
  {
  }

  /** Updating a key to the value it has changes nothing. */
  lemma UpdateSame(env: map<string, Value>, id: string)
    requires id in env
    ensures env[id := env[id]] == env
  {
  }

  /** A name the loop's layer does not bind is looked up around the loop. */
  lemma ThroughLoopLayer(m: Machine, t: nat, locals: set<string>, env: map<string, Value>, id: string)
    requires InLoopLayer(m, t, locals) && id !in locals && SeesFrom(m.layers, t, env) && id in env
    ensures Owner(m.layers, m.stack[|m.stack| - 1], id) == Owner(m.layers, t, id)
    ensures id in Env(m) && Env(m)[id] == env[id]
  {
    assert Lookup(m.layers, t, id) == Some(env[id]);
  }

  /** Entering the loop's layer: it binds nothing yet, and the code around it
      sees what it saw, here written with `id` bound to its value `v`. */
  lemma EnterLoop(m: Machine, locals: set<string>, id: string, v: Value)
    requires Valid(m) && |m.stack| > 0 && id in Env(m) && Env(m)[id] == v
    ensures InLoopLayer(Enter(m), m.stack[|m.stack| - 1], locals)
    ensures SeesFrom(Enter(m).layers, m.stack[|m.stack| - 1], Env(m)[id := v])
  {
    ExtendsKeepsVisible(m.layers, Enter(m).layers, m.stack[|m.stack| - 1]);
    UpdateSame(Env(m), id);
    SeesFromVisible(Enter(m).layers, m.stack[|m.stack| - 1], Env(m));
  }

  /** The passes that remain ended normally, on the same stack, still inside
      the loop's layer, with `env` seen around the loop. */
  ghost predicate Accumulated(r: Run<()>, stack: seq<nat>, t: nat, locals: set<string>, env: map<string, Value>)
  {
    r.result == Ok(()) && r.m.stack == stack && InLoopLayer(r.m, t, locals)
    && SeesFrom(r.m.layers, t, env)
  }

  /** Leaving the loop's layer: what was seen around the loop is what is
      visible. */
  lemma LeaveLoop(m: Machine, r: Run<()>, locals: set<string>, env: map<string, Value>)
    requires Valid(m) && |m.stack| > 0 && Valid(r.m)
    requires Accumulated(r, Enter(m).stack, m.stack[|m.stack| - 1], locals, env)
    ensures EndsWith(Popped(r), m.stack, env)
  {
    SeesFromVisible(r.m.layers, m.stack[|m.stack| - 1], env);
  }

  /** A statement ended normally on `stack` with `env` visible. */
  predicate EndsWith(r: Run<()>, stack: seq<nat>, env: map<string, Value>)
  {
    r.result == Ok(()) && r.m.stack == stack && Valid(r.m) && Env(r.m) == env
  }

  /** `define` of one of the loop's own names is not seen around the loop. */
  lemma DefineInLoop(m: Machine, t: nat, locals: set<string>, id: string, v: Value, env: map<string, Value>)
    requires InLoopLayer(m, t, locals) && id in locals && SeesFrom(m.layers, t, env)
    ensures Define(m, id, v).Ok? && InLoopLayer(Define(m, id, v).value, t, locals)
    ensures SeesFrom(Define(m, id, v).value.layers, t, env)
  {
    var l := m.stack[|m.stack| - 1];
    var after := Define(m, id, v).value.layers;
    assert l !in Chain(m.layers, t);
    forall x
      ensures Lookup(after, t, x) == Lookup(m.layers, t, x)
    {
      ChainUnchangedLookup(m.layers, after, t, x);
    }
  }

  /** `assign` of a name from around the loop is seen around the loop. */
  lemma AssignInLoop(m: Machine, t: nat, locals: set<string>, id: string, v: Value, env: map<string, Value>)
    requires InLoopLayer(m, t, locals) && id !in locals && SeesFrom(m.layers, t, env) && id in env
    ensures Assign(m, id, v).Ok? && InLoopLayer(Assign(m, id, v).value, t, locals)
    ensures SeesFrom(Assign(m, id, v).value.layers, t, env[id := v])
  {
    ThroughLoopLayer(m, t, locals, env, id);
    BindOwnerVisible(m.layers, t, id, v);
    SeesFromVisible(m.layers, t, env);
    SeesFromVisible(Assign(m, id, v).value.layers, t, env[id := v]);
  }

  /** A body that is the single statement `acc = acc + <right>`, with the
      addition resolved to integers. */
  predicate AddsTo(n: Nodes, body: seq<Stmt>, acc: string)
  {
    |body| == 1 && body[0].VariableAssignment? && body[0].name == acc
    && body[0].value.Addition? && body[0].value.node in n.resolvedTypes
    && n.resolvedTypes[body[0].value.node] == IntegerType
    && body[0].value.left.IdExpression? && body[0].value.left.id == acc
  }

  /** `acc = acc + iter`. */
  predicate Accumulates(n: Nodes, body: seq<Stmt>, acc: string, iter: string)
  {
    AddsTo(n, body, acc) && body[0].value.right.IdExpression? && body[0].value.right.id == iter
  }

  /** A sum within range does not wrap. */
  lemma PlusExact(a: Int32, b: Int32)
    requires MinInt <= a + b <= MaxInt
    ensures Plus(a, b) == a + b
  {
  }

  /** `+` on integer operands whose sum is in range gives the sum itself. */
  lemma AdditionInRange(n: Nodes, e: Expr, m: Machine, fuel: nat, a: Int32, b: Int32)
    requires e.Addition? && e.node in n.resolvedTypes && n.resolvedTypes[e.node] == IntegerType
    requires Valid(m) && IntOperand(e.left, m, a) && IntOperand(e.right, m, b)
    requires MinInt <= a + b <= MaxInt
    ensures Eval(n, e, m, fuel) == Run(Ok(IntValue((a + b) as Int32)), m)
  {
    AdditionOnInts(n, e, m, fuel, a, b);
    PlusExact(a, b);
  }

  /** `acc = acc + <right>` inside a loop, with `right` giving `b` and the sum
      in range: around the loop only `acc` changes, to the sum. */
  lemma AddStep(n: Nodes, body: seq<Stmt>, m: Machine, fuel: nat, t: nat, locals: set<string>,
                acc: string, outer: map<string, Value>, a: Int32, b: Int32)
    requires InLoopLayer(m, t, locals) && acc !in locals && AddsTo(n, body, acc)
    requires IntOperand(body[0].value.right, m, b) && MinInt <= a + b <= MaxInt
    requires SeesFrom(m.layers, t, outer[acc := IntValue(a)])
    ensures var r := ExecAll(n, body, m, fuel);
      r.result == Ok(()) && r.m.stack == m.stack && InLoopLayer(r.m, t, locals)
      && SeesFrom(r.m.layers, t, outer[acc := IntValue((a + b) as Int32)])
  {
    var env := outer[acc := IntValue(a)];
    var v := IntValue((a + b) as Int32);
    ThroughLoopLayer(m, t, locals, env, acc);
    AdditionInRange(n, body[0].value, m, fuel, a, b);
    AssignmentOfValue(n, body[0], m, fuel, v);
    AssignInLoop(m, t, locals, acc, v, env);
    UpdateTwice(outer, acc, IntValue(a), v);
    assert [body[0]] == body;
  }

  /** One pass of `for iter in first..last { acc = acc + iter; }`: the iterator
      is bound to `i` in the loop's layer, and around the loop only `acc`
      changes, growing by `i`. */
  lemma ForPassAdds(n: Nodes, s: Stmt, i: int, m: Machine, fuel: nat, t: nat, acc: string,
                    outer: map<string, Value>, a: Int32)
    requires s.ForLoop? && s.first as int <= i <= s.last as int
    requires InLoopLayer(m, t, {s.iteratorName})
    requires Accumulates(n, s.statements, acc, s.iteratorName) && acc != s.iteratorName
    requires SeesFrom(m.layers, t, outer[acc := IntValue(a)]) && MinInt <= a + i <= MaxInt
    ensures var r := ForPass(n, s, i, m, fuel);
      r.result == Ok(()) && r.m.stack == m.stack && InLoopLayer(r.m, t, {s.iteratorName})
      && SeesFrom(r.m.layers, t, outer[acc := IntValue((a + i) as Int32)])
  {
    var v := IntValue(i as Int32);
    DefineInLoop(m, t, {s.iteratorName}, s.iteratorName, v, outer[acc := IntValue(a)]);
    var bound := Define(m, s.iteratorName, v).value;
    assert ForPass(n, s, i, m, fuel) == ExecAll(n, s.statements, bound, fuel);
    AddStep(n, s.statements, bound, fuel, t, {s.iteratorName}, acc, outer, a, i as Int32);
  }

  /** A pass that completes hands over to the passes from `i + 1`. */
  lemma ForFromNext(n: Nodes, s: Stmt, i: int, m: Machine, fuel: nat)
    requires s.ForLoop? && s.first as int <= i <= s.last as int && Valid(m)
    requires ForPass(n, s, i, m, fuel).result.Ok?
    ensures ForFrom(n, s, i, m, fuel) == ForFrom(n, s, i + 1, ForPass(n, s, i, m, fuel).m, fuel)
  {
  }

  /** The sum from `i` includes `i`, and the rest is not negative. */
  lemma RangeSumHead(i: int, last: int)
    requires 0 <= i <= last
    ensures RangeSum(i, last) == i + RangeSum(i + 1, last) && i <= RangeSum(i, last)
  {
  }

  /** The first of the remaining passes, with the machine after it named
      `next`: what the rest does from `next` is what the passes do from `m`. */
  lemma ForAddsFirst(n: Nodes, s: Stmt, i: int, m: Machine, fuel: nat, t: nat,
                     acc: string, a: int, outer: map<string, Value>, total: Int32) returns (next: Machine)
    requires s.ForLoop? && 0 <= s.first && s.first as int <= i <= s.last as int
    requires InLoopLayer(m, t, {s.iteratorName})
    requires Accumulates(n, s.statements, acc, s.iteratorName) && acc != s.iteratorName
    requires 0 <= a && total == a + RangeSum(i, s.last as int)
    requires SeesFrom(m.layers, t, outer[acc := IntValue(a as Int32)])
    ensures next.stack == m.stack && InLoopLayer(next, t, {s.iteratorName})
    ensures SeesFrom(next.layers, t, outer[acc := IntValue((a + i) as Int32)])
    ensures 0 <= a + i && total == a + i + RangeSum(i + 1, s.last as int)
    ensures Accumulated(ForFrom(n, s, i + 1, next, fuel), next.stack, t, {s.iteratorName}, outer[acc := IntValue(total)])
            ==> Accumulated(ForFrom(n, s, i, m, fuel), m.stack, t, {s.iteratorName}, outer[acc := IntValue(total)])
  {
    RangeSumHead(i, s.last as int);
    ForPassAdds(n, s, i, m, fuel, t, acc, outer, a as Int32);
    next := ForPass(n, s, i, m, fuel).m;
    ForFromNext(n, s, i, m, fuel);
  }

  /** The passes of the accumulating loop from `i` on add `i + … + last` to
      `acc`, which reaches `total`, and change nothing else around the loop. */
  lemma {:induction false} ForAddsRange(n: Nodes, s: Stmt, i: int, m: Machine, fuel: nat, t: nat,
                                        acc: string, a: int, outer: map<string, Value>, total: Int32)
    requires s.ForLoop? && 0 <= s.first && s.first as int <= i
    requires InLoopLayer(m, t, {s.iteratorName})
    requires Accumulates(n, s.statements, acc, s.iteratorName) && acc != s.iteratorName
    requires 0 <= a && total == a + RangeSum(i, s.last as int)
    requires SeesFrom(m.layers, t, outer[acc := IntValue(a as Int32)])
    ensures Accumulated(ForFrom(n, s, i, m, fuel), m.stack, t, {s.iteratorName}, outer[acc := IntValue(total)])
    decreases s.last as int - i + 1
  {
    if i <= s.last as int {
      var next := ForAddsFirst(n, s, i, m, fuel, t, acc, a, outer, total);
      ForAddsRange(n, s, i + 1, next, fuel, t, acc, a + i, outer, total);
    } else {
      assert ForFrom(n, s, i, m, fuel) == Run(Ok(()), m);
      assert RangeSum(i, s.last as int) == 0;
    }
  }

  /** A `for` statement runs its passes in a fresh layer, then leaves it. */
  lemma ExecForLoop(n: Nodes, s: Stmt, m: Machine, fuel: nat, env: map<string, Value>)
    requires Valid(m) && |m.stack| > 0 && s.ForLoop?
    requires Accumulated(ForFrom(n, s, s.first as int, Enter(m), fuel), Enter(m).stack,
                         m.stack[|m.stack| - 1], {s.iteratorName}, env)
    ensures EndsWith(Exec(n, s, m, fuel), m.stack, env)
  {
    LeaveLoop(m, ForFrom(n, s, s.first as int, Enter(m), fuel), {s.iteratorName}, env);
  }

  /** `for iter in first..last { acc = acc + iter; }` adds `first + … + last`
      to `acc` and leaves every other visible name as it was: the iterator
      lives in the loop's own layer, which is left at the end. */
  lemma ForLoopAddsRange(n: Nodes, s: Stmt, m: Machine, fuel: nat, acc: string, a: Int32, total: Int32)
    requires Valid(m) && |m.stack| > 0
    requires s.ForLoop? && 0 <= s.first
    requires Accumulates(n, s.statements, acc, s.iteratorName) && acc != s.iteratorName
    requires acc in Env(m) && Env(m)[acc] == IntValue(a)
    requires 0 <= a && total == a + RangeSum(s.first as int, s.last as int)
    ensures var r := Exec(n, s, m, fuel);
      r.result == Ok(()) && r.m.stack == m.stack && Env(r.m) == Env(m)[acc := IntValue(total)]
  {
    var t := m.stack[|m.stack| - 1];
    EnterLoop(m, {s.iteratorName}, acc, IntValue(a));
    ForAddsRange(n, s, s.first as int, Enter(m), fuel, t, acc, a, Env(m), total);
    ExecForLoop(n, s, m, fuel, Env(m)[acc := IntValue(total)]);
  }

  /** `while x < k { x = x + 1; }`, with the addition resolved to integers. */
  predicate CountsTo(n: Nodes, s: Stmt, x: string, k: Int32)
  {
    s.WhileLoop? && s.condition.LesserThan?
    && s.condition.left.IdExpression? && s.condition.left.id == x
    && s.condition.right == IntLiteral(k)
    && AddsTo(n, s.statements, x) && s.statements[0].value.right == IntLiteral(1)
  }

  /** A `while` statement runs its passes in a fresh layer, then leaves it. */
  lemma ExecWhileLoop(n: Nodes, s: Stmt, m: Machine, fuel: nat, env: map<string, Value>)
    requires Valid(m) && |m.stack| > 0 && s.WhileLoop?
    requires Accumulated(WhileFrom(n, s, Enter(m), fuel), Enter(m).stack, m.stack[|m.stack| - 1], {}, env)
    ensures EndsWith(Exec(n, s, m, fuel), m.stack, env)
  {
    LeaveLoop(m, WhileFrom(n, s, Enter(m), fuel), {}, env);
  }

  /** A true condition with fuel left runs the body, then the passes that
      follow with one unit less. */
  lemma WhileFromNext(n: Nodes, s: Stmt, m: Machine, fuel: nat)
    requires s.WhileLoop? && Valid(m) && 0 < fuel
    requires Eval(n, s.condition, m, fuel) == Run(Ok(BooleanValue(true)), m)
    requires ExecAll(n, s.statements, m, fuel).result.Ok?
    ensures WhileFrom(n, s, m, fuel) == WhileFrom(n, s, ExecAll(n, s.statements, m, fuel).m, fuel - 1)
  {
  }

  /** A false condition ends the passes. */
  lemma WhileFromEnd(n: Nodes, s: Stmt, m: Machine, fuel: nat)
    requires s.WhileLoop? && Valid(m)
    requires Eval(n, s.condition, m, fuel) == Run(Ok(BooleanValue(false)), m)
    ensures WhileFrom(n, s, m, fuel) == Run(Ok(()), m)
  {
  }

  /** The counting loop's condition is `a < k`, read without side effects. */
  lemma CountTest(n: Nodes, s: Stmt, m: Machine, fuel: nat, t: nat, x: string, k: Int32,
                  outer: map<string, Value>, a: Int32)
    requires InLoopLayer(m, t, {}) && CountsTo(n, s, x, k)
    requires SeesFrom(m.layers, t, outer[x := IntValue(a)])
    ensures Eval(n, s.condition, m, fuel) == Run(Ok(BooleanValue(a < k)), m)
  {
    ThroughLoopLayer(m, t, {}, outer[x := IntValue(a)], x);
    OperatorOnInts(n, s.condition, m, fuel, a, k);
  }

  /** One pass of the counting loop from `x == a < k`: `x` grows by one
      around the loop, and the passes that follow start from there. */
  lemma CountPass(n: Nodes, s: Stmt, m: Machine, fuel: nat, t: nat, x: string, k: Int32,
                  outer: map<string, Value>, a: Int32)
    requires InLoopLayer(m, t, {}) && CountsTo(n, s, x, k) && a < k && 0 < fuel
    requires SeesFrom(m.layers, t, outer[x := IntValue(a)])
    ensures var r := ExecAll(n, s.statements, m, fuel);
      r.result.Ok? && r.m.stack == m.stack && InLoopLayer(r.m, t, {})
      && SeesFrom(r.m.layers, t, outer[x := IntValue((a + 1) as Int32)])
      && WhileFrom(n, s, m, fuel) == WhileFrom(n, s, r.m, fuel - 1)
  {
    CountTest(n, s, m, fuel, t, x, k, outer, a);
    AddStep(n, s.statements, m, fuel, t, {}, x, outer, a, 1);
    WhileFromNext(n, s, m, fuel);
  }

  /** The first pass of the counting loop, with the machine after it named
      `next`: what the rest does from `next` is what the loop does from `m`. */
  lemma CountFirst(n: Nodes, s: Stmt, m: Machine, fuel: nat, t: nat, x: string, k: Int32,
                   outer: map<string, Value>, a: Int32) returns (next: Machine)
    requires InLoopLayer(m, t, {}) && CountsTo(n, s, x, k) && a < k && 0 < fuel
    requires SeesFrom(m.layers, t, outer[x := IntValue(a)])
    ensures next.stack == m.stack && InLoopLayer(next, t, {})
    ensures SeesFrom(next.layers, t, outer[x := IntValue((a + 1) as Int32)])
    ensures Accumulated(WhileFrom(n, s, next, fuel - 1), next.stack, t, {}, outer[x := IntValue(k)])
            ==> Accumulated(WhileFrom(n, s, m, fuel), m.stack, t, {}, outer[x := IntValue(k)])
  {
    CountPass(n, s, m, fuel, t, x, k, outer, a);
    next := ExecAll(n, s.statements, m, fuel).m;
  }

  /** The passes of the counting loop take `x` from `a` up to `k`, given one
      unit of fuel per pass, and change nothing else around the loop. */
  lemma {:induction false} CountsUp(n: Nodes, s: Stmt, m: Machine, fuel: nat, t: nat, x: string, k: Int32,
                                    outer: map<string, Value>, a: Int32)
    requires InLoopLayer(m, t, {}) && CountsTo(n, s, x, k) && a <= k && k - a <= fuel
    requires SeesFrom(m.layers, t, outer[x := IntValue(a)])
    ensures Accumulated(WhileFrom(n, s, m, fuel), m.stack, t, {}, outer[x := IntValue(k)])
    decreases k - a
  {
    if a < k {
      var next := CountFirst(n, s, m, fuel, t, x, k, outer, a);
      CountsUp(n, s, next, fuel - 1, t, x, k, outer, (a + 1) as Int32);
    } else {
      CountTest(n, s, m, fuel, t, x, k, outer, a);
      WhileFromEnd(n, s, m, fuel);
    }
  }

  /** `while x < k { x = x + 1; }` from `x == a <= k` ends with `x == k` and
      every other visible name as it was. */
  lemma WhileLoopCountsUp(n: Nodes, s: Stmt, m: Machine, fuel: nat, x: string, k: Int32, a: Int32)
    requires Valid(m) && |m.stack| > 0 && CountsTo(n, s, x, k)
    requires x in Env(m) && Env(m)[x] == IntValue(a) && a <= k && k - a <= fuel
    ensures var r := Exec(n, s, m, fuel);
      r.result == Ok(()) && r.m.stack == m.stack && Env(r.m) == Env(m)[x := IntValue(k)]
  {
    var t := m.stack[|m.stack| - 1];
    EnterLoop(m, {}, x, IntValue(a));
    CountsUp(n, s, Enter(m), fuel, t, x, k, Env(m), a);
    ExecWhileLoop(n, s, m, fuel, Env(m)[x := IntValue(k)]);
  }

  // --------------------------------------------------------------- examples

  /** `1 + 2`, `3 - 2`, `2 * 3` and `8 % 3` give 3, 1, 6 and 2. */
  lemma ArithmeticExamples(n: Nodes, m: Machine, fuel: nat, k: nat)
    requires Valid(m) && k in n.resolvedTypes && n.resolvedTypes[k] == IntegerType
    ensures Eval(n, Addition(k, IntLiteral(1), IntLiteral(2)), m, fuel) == Run(Ok(IntValue(3)), m)
    ensures Eval(n, Subtraction(IntLiteral(3), IntLiteral(2)), m, fuel) == Run(Ok(IntValue(1)), m)
    ensures Eval(n, Multiplication(IntLiteral(2), IntLiteral(3)), m, fuel) == Run(Ok(IntValue(6)), m)
    ensures Eval(n, Mod(IntLiteral(8), IntLiteral(3)), m, fuel) == Run(Ok(IntValue(2)), m)
  {
    AdditionInRange(n, Addition(k, IntLiteral(1), IntLiteral(2)), m, fuel, 1, 2);
    OperatorOnInts(n, Subtraction(IntLiteral(3), IntLiteral(2)), m, fuel, 3, 2);
    OperatorOnInts(n, Multiplication(IntLiteral(2), IntLiteral(3)), m, fuel, 2, 3);
    OperatorOnInts(n, Mod(IntLiteral(8), IntLiteral(3)), m, fuel, 8, 3);
  }

  /** `-5` gives -5, `1 == 1` gives true and `1 == 2` gives false. */
  lemma SignAndEqualityExamples(n: Nodes, m: Machine, fuel: nat)
    requires Valid(m)
    ensures Eval(n, UnaryMinus(IntLiteral(5)), m, fuel) == Run(Ok(IntValue(-5)), m)
    ensures Eval(n, Equal(IntLiteral(1), IntLiteral(1)), m, fuel) == Run(Ok(BooleanValue(true)), m)
    ensures Eval(n, Equal(IntLiteral(1), IntLiteral(2)), m, fuel) == Run(Ok(BooleanValue(false)), m)
  {
    LiteralEvaluatesToItself(n, IntLiteral(5), m, fuel);
    LiteralEvaluatesToItself(n, IntLiteral(1), m, fuel);
    LiteralEvaluatesToItself(n, IntLiteral(2), m, fuel);
    assert Eval(n, UnaryMinus(IntLiteral(5)), m, fuel) == EvalUnaryMinus(n, UnaryMinus(IntLiteral(5)), m, fuel);
    assert Negate(5) == -5;
    assert Eval(n, Equal(IntLiteral(1), IntLiteral(1)), m, fuel) == EvalEqual(n, Equal(IntLiteral(1), IntLiteral(1)), m, fuel);
    assert Eval(n, Equal(IntLiteral(1), IntLiteral(2)), m, fuel) == EvalEqual(n, Equal(IntLiteral(1), IntLiteral(2)), m, fuel);
  }

  /** `1 < 2`, `2 < 1`, `1 <= 1` and `2 <= 1` give true, false, true and false. */
  lemma ComparisonExamples(n: Nodes, m: Machine, fuel: nat)
    requires Valid(m)
    ensures Eval(n, LesserThan(IntLiteral(1), IntLiteral(2)), m, fuel) == Run(Ok(BooleanValue(true)), m)
    ensures Eval(n, LesserThan(IntLiteral(2), IntLiteral(1)), m, fuel) == Run(Ok(BooleanValue(false)), m)
    ensures Eval(n, LesserEqual(IntLiteral(1), IntLiteral(1)), m, fuel) == Run(Ok(BooleanValue(true)), m)
    ensures Eval(n, LesserEqual(IntLiteral(2), IntLiteral(1)), m, fuel) == Run(Ok(BooleanValue(false)), m)
  {
    OperatorOnInts(n, LesserThan(IntLiteral(1), IntLiteral(2)), m, fuel, 1, 2);
    OperatorOnInts(n, LesserThan(IntLiteral(2), IntLiteral(1)), m, fuel, 2, 1);
    OperatorOnInts(n, LesserEqual(IntLiteral(1), IntLiteral(1)), m, fuel, 1, 1);
    OperatorOnInts(n, LesserEqual(IntLiteral(2), IntLiteral(1)), m, fuel, 2, 1);
  }

  /** `for i in 1..3 { x = x + i; }` from `x == 0` leaves `x == 6`. */
  lemma ForLoopSumsToSix(n: Nodes, m: Machine, fuel: nat, k: nat, l1: Loc, l2: Loc, l3: Loc)
    requires Valid(m) && |m.stack| > 0 && "x" in Env(m) && Env(m)["x"] == IntValue(0)
    requires k in n.resolvedTypes && n.resolvedTypes[k] == IntegerType
    ensures var loop := ForLoop("i", 1, 3, [VariableAssignment("x", Addition(k, IdExpression("x", l1), IdExpression("i", l2)), l3)]);
      var r := Exec(n, loop, m, fuel);
      r.result == Ok(()) && Env(r.m) == Env(m)["x" := IntValue(6)]
  {
    var loop := ForLoop("i", 1, 3, [VariableAssignment("x", Addition(k, IdExpression("x", l1), IdExpression("i", l2)), l3)]);
    assert RangeSum(1, 3) == 6;
    ForLoopAddsRange(n, loop, m, fuel, "x", 0, 6);
  }

  /** With `i == 42` and `x == 5`, `for i in 1..5 { x = x + i; }` leaves
      `x == 20` and the outer `i` at 42. */
  lemma ForLoopKeepsOuterName(n: Nodes, m: Machine, fuel: nat, k: nat, l1: Loc, l2: Loc, l3: Loc)
    requires Valid(m) && |m.stack| > 0 && "i" in Env(m) && Env(m)["i"] == IntValue(42)
    requires "x" in Env(m) && Env(m)["x"] == IntValue(5)
    requires k in n.resolvedTypes && n.resolvedTypes[k] == IntegerType
    ensures var loop := ForLoop("i", 1, 5, [VariableAssignment("x", Addition(k, IdExpression("x", l1), IdExpression("i", l2)), l3)]);
      var r := Exec(n, loop, m, fuel);
      r.result == Ok(()) && Env(r.m) == Env(m)["x" := IntValue(20)] &&
      "i" in Env(r.m) && Env(r.m)["i"] == IntValue(42)
  {
    var loop := ForLoop("i", 1, 5, [VariableAssignment("x", Addition(k, IdExpression("x", l1), IdExpression("i", l2)), l3)]);
    assert RangeSum(1, 5) == 15;
    ForLoopAddsRange(n, loop, m, fuel, "x", 5, 20);
  }

  /** `while x < 10 { x = x + 1; }` from `x == 5`, with fuel for five passes,
      leaves `x == 10`. */
  lemma WhileLoopReachesTen(n: Nodes, m: Machine, fuel: nat, k: nat, l1: Loc, l2: Loc, l3: Loc)
    requires Valid(m) && |m.stack| > 0 && "x" in Env(m) && Env(m)["x"] == IntValue(5) && 5 <= fuel
    requires k in n.resolvedTypes && n.resolvedTypes[k] == IntegerType
    ensures var loop := WhileLoop(LesserThan(IdExpression("x", l1), IntLiteral(10)),
                                  [VariableAssignment("x", Addition(k, IdExpression("x", l2), IntLiteral(1)), l3)]);
      var r := Exec(n, loop, m, fuel);
      r.result == Ok(()) && Env(r.m) == Env(m)["x" := IntValue(10)]
  {
    var loop := WhileLoop(LesserThan(IdExpression("x", l1), IntLiteral(10)),
                          [VariableAssignment("x", Addition(k, IdExpression("x", l2), IntLiteral(1)), l3)]);
    WhileLoopCountsUp(n, loop, m, fuel, "x", 10, 5);
  }
}
