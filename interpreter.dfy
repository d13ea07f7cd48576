/** The evaluator at file level: the built-in functions, imports, interface
    stubs, function declarations and top-level statements of a source file, in
    `SourceFile.eval()`'s order. Each method follows the file-level rule of the
    same name. */
module Interpreter {
  import opened Wrappers
  import opened Syntax
  import opened BuiltIns
  import opened Values
  import opened Context
  import Runtime
  import S = Semantics
  import Evaluator

  /** `defineFunction(f.name, f)` for each function in turn. */
  method DefineAll(ctx: Context, fs: seq<Function>) returns (r: Outcome<()>)
    requires ctx.Valid()
    modifies ctx.scope
    ensures ctx.Valid() && Reaches(ctx, S.DefineAll(old(ctx.State()), fs), r)
  {
    var i := 0;
    while i < |fs|
      invariant 0 <= i <= |fs| && ctx.Valid()
      invariant S.DefineAll(old(ctx.State()), fs) == S.DefineAll(ctx.State(), fs[i..])
    {
      assert fs[i..][0] == fs[i] && fs[i..][1..] == fs[i + 1..];
      r := ctx.DefineFunction(fs[i].name, fs[i]);
      if r.Fail? {
        return;
      }
      i := i + 1;
    }
    r := Ok(());
  }

  /** `InterfaceDeclaration.eval()`: each stub captures the top layer, which an
      empty stack does not have, and is defined at runtime. */
  method DefineStubs(ctx: Context, stubs: seq<Function>) returns (r: Outcome<()>)
    requires ctx.Valid()
    modifies ctx.scope
    ensures ctx.Valid() && Reaches(ctx, S.DefineStubs(old(ctx.State()), stubs), r)
  {
    var i := 0;
    while i < |stubs|
      invariant 0 <= i <= |stubs| && ctx.Valid()
      invariant S.DefineStubs(old(ctx.State()), stubs) == S.DefineStubs(ctx.State(), stubs[i..])
    {
      assert stubs[i..][0] == stubs[i] && stubs[i..][1..] == stubs[i + 1..];
      if |ctx.scope.stack| == 0 {
        return Fail(NoSuchElement);
      }
      r := ctx.DefineFunction(stubs[i].name, stubs[i]);
      if r.Fail? {
        return;
      }
      i := i + 1;
    }
    r := Ok(());
  }

  /** `types.forEach(AstNode::eval)`: data and enum declarations do nothing at
      runtime; an interface defines its completed stubs. */
  method EvalTypes(ctx: Context, n: S.Nodes, types: seq<TypeDeclaration>) returns (r: Outcome<()>)
    requires ctx.Valid()
    modifies ctx.scope
    ensures ctx.Valid() && Reaches(ctx, S.EvalTypes(n, types, old(ctx.State())), r)
  {
    var i := 0;
    while i < |types|
      invariant 0 <= i <= |types| && ctx.Valid()
      invariant S.EvalTypes(n, types, old(ctx.State())) == S.EvalTypes(n, types[i..], ctx.State())
    {
      assert types[i..][0] == types[i] && types[i..][1..] == types[i + 1..];
      if types[i].InterfaceDeclaration? {
        var node := types[i].node;
        r := DefineStubs(ctx, if node in n.completeFunctions then n.completeFunctions[node] else []);
        if r.Fail? {
          return;
        }
      }
      i := i + 1;
    }
    r := Ok(());
  }

  /** `FunctionDeclaration.eval()`: the declared function captures the top layer,
      then is defined at runtime. */
  method EvalFunctionDeclaration(ctx: Context, n: S.Nodes, d: FunctionDeclaration) returns (r: Outcome<()>)
    requires ctx.Valid()
    modifies ctx.scope, ctx`parentScopes
    ensures ctx.Valid() && Reaches(ctx, S.EvalFunctionDeclaration(n, d, old(ctx.State())), r)
  {
    if d.node !in n.declaredFunctions {
      return Fail(Uninitialized);
    }
    if |ctx.scope.stack| == 0 {
      return Fail(NoSuchElement);
    }
    var f := n.declaredFunctions[d.node];
    ctx.CaptureTop(d.node);
    r := ctx.DefineFunction(f.name, f);
  }

  /** `functions.forEach(AstNode::eval)`. */
  method EvalFunctions(ctx: Context, n: S.Nodes, ds: seq<FunctionDeclaration>) returns (r: Outcome<()>)
    requires ctx.Valid()
    modifies ctx.scope, ctx`parentScopes
    ensures ctx.Valid() && Reaches(ctx, S.EvalFunctions(n, ds, old(ctx.State())), r)
  {
    var i := 0;
    while i < |ds|
      invariant 0 <= i <= |ds| && ctx.Valid()
      invariant S.EvalFunctions(n, ds, old(ctx.State())) == S.EvalFunctions(n, ds[i..], ctx.State())
    {
      assert ds[i..][0] == ds[i] && ds[i..][1..] == ds[i + 1..];
      r := EvalFunctionDeclaration(ctx, n, ds[i]);
      if r.Fail? {
        return;
      }
      i := i + 1;
    }
    r := Ok(());
  }

  /** `currentScope.bindings[id] = scope.get(id)` for each imported name: the
      value is what the imported file's scope sees, written into the importer's
      layer. */
  method ExportValues(ctx: Context, current: nat, ids: seq<string>) returns (r: Outcome<()>)
    requires ctx.Valid() && current < |ctx.scope.layers|
    modifies ctx.scope
    ensures ctx.Valid() && Reaches(ctx, S.ExportValues(old(ctx.State()), current, ids), r)
  {
    var i := 0;
    while i < |ids|
      invariant 0 <= i <= |ids| && ctx.Valid() && current < |ctx.scope.layers|
      invariant S.ExportValues(old(ctx.State()), current, ids) == S.ExportValues(ctx.State(), current, ids[i..])
    {
      assert ids[i..][0] == ids[i] && ids[i..][1..] == ids[i + 1..];
      var v := ctx.Get(ids[i]);
      if v.Fail? {
        return Fail(v.failure);
      }
      ctx.SetIn(current, ids[i], v.value);
      i := i + 1;
    }
    r := Ok(());
  }
  /** `SourceFile.eval()`: built-in functions, imports, type declarations,
      function declarations, then the top-level statements; the first
      exception stops it. */
  method EvalFile(ctx: Context, n: S.Nodes, file: SourceFile, fuel: nat) returns (r: Outcome<()>)
    requires ctx.Valid()
    modifies ctx.scope, ctx`output, ctx`input, ctx`parentScopes
    ensures ctx.Valid() && Evaluator.Gives(ctx, S.EvalFile(n, file, old(ctx.State()), fuel), r)
    decreases fuel, 1, 0, 0
  {
    r := DefineAll(ctx, Functions);
    if r.Fail? {
      return;
    }
    r := EvalImports(ctx, n, file.imports, fuel);
    if r.Fail? {
      return;
    }
    r := EvalTypes(ctx, n, file.types);
    if r.Fail? {
      return;
    }
    r := EvalFunctions(ctx, n, file.functions);
    if r.Fail? {
      return;
    }
    r := Evaluator.ExecAll(ctx, n, file.statements, fuel);
  }

  /** `imports.forEach(AstNode::eval)`. */
  method EvalImports(ctx: Context, n: S.Nodes, imports: seq<ImportDeclaration>, fuel: nat) returns (r: Outcome<()>)
    requires ctx.Valid()
    modifies ctx.scope, ctx`output, ctx`input, ctx`parentScopes
    ensures ctx.Valid() && Evaluator.Gives(ctx, S.EvalImports(n, imports, old(ctx.State()), fuel), r)
    decreases fuel, 0, |imports|, 0
  {
    var i := 0;
    while i < |imports|
      invariant 0 <= i <= |imports| && ctx.Valid()
      invariant S.EvalImports(n, imports, old(ctx.State()), fuel) == S.EvalImports(n, imports[i..], ctx.State(), fuel)
    {
      assert imports[i..][0] == imports[i] && imports[i..][1..] == imports[i + 1..];
      r := EvalImport(ctx, n, imports[i], fuel);
      if r.Fail? {
        return;
      }
      i := i + 1;
    }
    r := Ok(());
  }

  /** `ImportDeclaration.eval()`: the imported file runs on a new parentless
      layer pushed for it; each listed name is then copied from what that file's
      scope sees into the importer's top layer, and the layer is popped. */
  method EvalImport(ctx: Context, n: S.Nodes, imp: ImportDeclaration, fuel: nat) returns (r: Outcome<()>)
    requires ctx.Valid()
    modifies ctx.scope, ctx`output, ctx`input, ctx`parentScopes
    ensures ctx.Valid() && Evaluator.Gives(ctx, S.EvalImport(n, imp, old(ctx.State()), fuel), r)
    decreases fuel, 0, 0, 1
  {
    if |ctx.scope.stack| == 0 {
      return Fail(NoSuchElement);
    }
    var current := ctx.scope.stack[|ctx.scope.stack| - 1];
    var index := ctx.NewLayer();
    ctx.EnterWith(index);
    r := ImportPath(ctx, n, imp, current, fuel);
  }

  /** The imported file, looked up by path on the layer pushed for it. */
  method ImportPath(ctx: Context, n: S.Nodes, imp: ImportDeclaration, current: nat, fuel: nat) returns (r: Outcome<()>)
    requires ctx.Valid() && current < |ctx.scope.layers| && |ctx.scope.stack| > 0
    modifies ctx.scope, ctx`output, ctx`input, ctx`parentScopes
    ensures ctx.Valid() && Evaluator.Gives(ctx, S.ImportPath(n, imp, current, old(ctx.State()), fuel), r)
    decreases fuel, 0, 0, 0
  {
    if imp.filePath !in n.sourceFiles {
      return Fail(NullValue);
    }
    if fuel == 0 {
      return Fail(OutOfFuel);
    }
    r := ImportFile(ctx, n, n.sourceFiles[imp.filePath], current, imp.ids, fuel - 1);
  }

  /** The imported file's evaluation on its pushed layer, the copying of the
      listed names into `current`, and the pop. */
  method ImportFile(ctx: Context, n: S.Nodes, file: SourceFile, current: nat, ids: seq<string>, fuel: nat)
    returns (r: Outcome<()>)
    requires ctx.Valid() && current < |ctx.scope.layers| && |ctx.scope.stack| > 0
    modifies ctx.scope, ctx`output, ctx`input, ctx`parentScopes
    ensures ctx.Valid() && Evaluator.Gives(ctx, S.ImportFile(n, file, current, ids, old(ctx.State()), fuel), r)
    decreases fuel, 2, 0, 0
  {
    r := EvalFile(ctx, n, file, fuel);
    if r.Fail? {
      return;
    }
    r := ExportValues(ctx, current, ids);
    if r.Fail? {
      return;
    }
    r := ctx.Leave();
  }
}
