/** `SourceFile.typeCheck` and `ImportDeclaration.typeCheck` against the shared
    `Context`: the phases of a file in their fixed order, and an import, which
    checks the imported file from nothing in a child of a fresh parentless layer
    and copies the listed names into the importer's layer. Each method is
    proved to follow its rule in `DeclarationRules`; the frame every phase keeps
    is that only layers on the chain of the file's top layer are written. */
module Files {
  import opened Wrappers
  import opened Syntax
  import opened BuiltIns
  import opened Types
  import opened Diagnostics
  import opened Scopes
  import opened Context
  import opened TypingRules
  import opened DeclarationRules
  import opened Checker
  import opened Declarations

  // ------------------------------------------------------------------- a file

  /** `SourceFile.typeCheck` on the typing scope as it stands: the rule's
      outcome and diagnostics; on success the stacks are as they were, and of
      the existing typing layers only those a lookup from the top one visits
      hold new bindings. */
  method TypeCheckFile(ctx: Context, file: SourceFile, fuel: nat) returns (r: Outcome<()>)
    requires ctx.Valid() && |ctx.typingScope.stack| > 0
    modifies ctx`typeErrors, ctx`resolvedTypes, ctx`resolvedCalls, ctx`resolvedArguments, ctx`iioTypes,
             ctx`constructedTypes, ctx`declaredFunctions, ctx`completeFunctions, ctx.scope, ctx.typingScope
    ensures ctx.Valid()
    ensures r == Done(FileChecked(file, ctx.sourceFiles, old(ctx.TypingEnv()), fuel).result)
    ensures ctx.typeErrors == old(ctx.typeErrors) + FileChecked(file, ctx.sourceFiles, old(ctx.TypingEnv()), fuel).errors
    ensures r.Ok? ==> ctx.TypingEnv() == FileChecked(file, ctx.sourceFiles, old(ctx.TypingEnv()), fuel).result.value
    ensures r.Ok? ==> ctx.typingScope.stack == old(ctx.typingScope.stack) && ctx.scope.stack == old(ctx.scope.stack)
                      && ChainKept(old(ctx.typingScope.layers), ctx.typingScope.layers, ctx.typingScope.stack[|ctx.typingScope.stack| - 1])
                      && ParentsKept(old(ctx.typingScope.layers), ctx.typingScope.layers)
  {
    ghost var stack := ctx.typingScope.stack;
    r := CheckFile(ctx, file, fuel, ctx.typingScope.layers, stack[|stack| - 1]);
  }

  /** `SourceFile.typeCheck`: the built-ins, the imports, then the declarations,
      statements and bodies. */
  method CheckFile(ctx: Context, file: SourceFile, fuel: nat, ghost start: seq<Layer<Type>>, ghost top: nat)
    returns (r: Outcome<()>)
    requires ctx.Valid() && WrittenSince(ctx.typingScope, start, top)
    modifies ctx`typeErrors, ctx`resolvedTypes, ctx`resolvedCalls, ctx`resolvedArguments, ctx`iioTypes,
             ctx`constructedTypes, ctx`declaredFunctions, ctx`completeFunctions, ctx.scope, ctx.typingScope
    ensures ctx.Valid()
    ensures r == Done(FileChecked(file, ctx.sourceFiles, old(ctx.TypingEnv()), fuel).result)
    ensures ctx.typeErrors == old(ctx.typeErrors) + FileChecked(file, ctx.sourceFiles, old(ctx.TypingEnv()), fuel).errors
    ensures r.Ok? ==> WrittenSince(ctx.typingScope, start, top)
                      && ctx.typingScope.stack == old(ctx.typingScope.stack) && ctx.scope.stack == old(ctx.scope.stack)
                      && ctx.TypingEnv() == FileChecked(file, ctx.sourceFiles, old(ctx.TypingEnv()), fuel).result.value
    decreases fuel, 2, 0
  {
    r := RegisterBuiltIns(ctx, start, top);
    if r.Fail? {
      return;
    }
    ghost var builtIns := WithBuiltIns(old(ctx.TypingEnv())).value;
    ghost var imports := ImportsChecked(file.imports, ctx.sourceFiles, builtIns, fuel);
    r := CheckImports(ctx, file.imports, fuel, start, top);
    if r.Fail? {
      return;
    }
    r := CheckDeclared(ctx, file, start, top);
    Appended(old(ctx.typeErrors), imports.errors, Declared(file, imports.result.value).errors);
  }

  // ---------------------------------------------------------------- built-ins

  /** The built-in types defined in turn, each under its own name. */
  method RegisterTypes(ctx: Context, ts: seq<Type>, ghost start: seq<Layer<Type>>, ghost top: nat)
    requires ctx.Valid() && WrittenSince(ctx.typingScope, start, top)
    modifies ctx.typingScope
    ensures ctx.Valid() && ctx.typingScope.stack == old(ctx.typingScope.stack)
    ensures WrittenSince(ctx.typingScope, start, top)
    ensures ctx.TypingEnv() == Registered(old(ctx.TypingEnv()), ts)
  {
    ghost var env := ctx.TypingEnv();
    ghost var stack := ctx.typingScope.stack;
    assert ts[..0] == [];
    var i := 0;
    while i < |ts|
      invariant 0 <= i <= |ts|
      invariant ctx.Valid() && ctx.typingScope.stack == stack
      invariant WrittenSince(ctx.typingScope, start, top)
      invariant ctx.TypingEnv() == Registered(env, ts[..i])
    {
      RegisteredStep(env, ts, i);
      var defined := DefineInChain(ctx, ts[i].name, ts[i], start, top);
      i := i + 1;
    }
    assert ts[..|ts|] == ts;
  }

  /** The first two phases of `typeCheck`: the registered built-in types, then
      the built-in functions. */
  method RegisterBuiltIns(ctx: Context, ghost start: seq<Layer<Type>>, ghost top: nat) returns (r: Outcome<()>)
    requires ctx.Valid() && WrittenSince(ctx.typingScope, start, top)
    modifies ctx.typingScope
    ensures ctx.Valid() && ctx.typingScope.stack == old(ctx.typingScope.stack)
    ensures r == Done(WithBuiltIns(old(ctx.TypingEnv())))
    ensures r.Ok? ==> WrittenSince(ctx.typingScope, start, top) && ctx.TypingEnv() == WithBuiltIns(old(ctx.TypingEnv())).value
  {
    RegisterTypes(ctx, RegisteredTypes, start, top);
    r := DefineFunctionTypes(ctx, Functions, start, top);
  }

  // ------------------------------------------------------------------ imports

  /** The state of an import between checking the imported file and leaving:
      the stack's top is the imported file's layer, a child of the parentless
      layer `base`; the importer's layer `current` is older than both, and
      since `start` only its chain was written. */
  ghost predicate ImportFrame(layers: seq<Layer<Type>>, stack: seq<nat>, start: seq<Layer<Type>>, base: nat, current: nat)
  {
    WellFormed(layers) && |stack| > 0 && stack[|stack| - 1] == base + 1 && base + 1 < |layers|
    && layers[base + 1].parent == Some(base) && layers[base].parent.None?
    && current < base
    && ChainKept(start, layers, current) && ParentsKept(start, layers)
  }

  /** `currentScope.bindings[id] = typingScope.get(id)`: the name as the
      imported file sees it, written into the importer's layer, which the
      imported file's lookups never visit. */
  method ExportId(ctx: Context, current: nat, id: string, ghost start: seq<Layer<Type>>, ghost base: nat,
                  ghost inner: map<string, Type>, ghost outer: map<string, Type>) returns (r: Outcome<()>)
    requires ctx.Valid() && ImportFrame(ctx.typingScope.layers, ctx.typingScope.stack, start, base, current)
    requires ctx.TypingEnv() == inner && Visible(ctx.typingScope.layers, Some(current)) == outer
    modifies ctx.typingScope
    ensures ctx.Valid() && ctx.typingScope.stack == old(ctx.typingScope.stack)
    ensures ImportFrame(ctx.typingScope.layers, ctx.typingScope.stack, start, base, current)
    ensures r == if id in inner then Ok(()) else Fail(UnknownName(id))
    ensures r.Ok? ==> ctx.TypingEnv() == inner && Visible(ctx.typingScope.layers, Some(current)) == outer[id := inner[id]]
  {
    ghost var before := ctx.typingScope.layers;
    var v := ctx.typingScope.Get(id);
    if v.Fail? {
      return Fail(UnknownName(id));
    }
    assert Chain(before, base) == [base];
    assert Chain(before, base + 1) == [base + 1, base];
    BindOffChainVisible(before, base + 1, current, id, v.value);
    BindTopVisible(before, current, id, v.value);
    BindOnChain(before, current, current, id, v.value);
    ctx.typingScope.SetIn(current, id, v.value);
    ChainKeptTransitive(start, before, ctx.typingScope.layers, current);
    assert ctx.typingScope.Top() == Some(base + 1);
    r := Ok(());
  }

  /** The loop of `ImportDeclaration.typeCheck` over the listed names. */
  method ExportIds(ctx: Context, current: nat, ids: seq<string>, ghost start: seq<Layer<Type>>, ghost base: nat,
                   ghost inner: map<string, Type>, ghost outer: map<string, Type>) returns (r: Outcome<()>)
    requires ctx.Valid() && ImportFrame(ctx.typingScope.layers, ctx.typingScope.stack, start, base, current)
    requires ctx.TypingEnv() == inner && Visible(ctx.typingScope.layers, Some(current)) == outer
    modifies ctx.typingScope
    ensures ctx.Valid() && ctx.typingScope.stack == old(ctx.typingScope.stack)
    ensures ImportFrame(ctx.typingScope.layers, ctx.typingScope.stack, start, base, current)
    ensures r == Done(Exported(inner, ids, outer))
    ensures r.Ok? ==> Visible(ctx.typingScope.layers, Some(current)) == Exported(inner, ids, outer).value
  {
    ghost var stack := ctx.typingScope.stack;
    assert ids[..0] == [];
    var i := 0;
    while i < |ids|
      invariant 0 <= i <= |ids|
      invariant ctx.Valid() && ctx.typingScope.stack == stack
      invariant ImportFrame(ctx.typingScope.layers, ctx.typingScope.stack, start, base, current)
      invariant ctx.TypingEnv() == inner
      invariant Exported(inner, ids[..i], outer).Ok?
      invariant Visible(ctx.typingScope.layers, Some(current)) == Exported(inner, ids[..i], outer).value
    {
      ExportedStep(inner, ids, outer, i);
      var copied := ExportId(ctx, current, ids[i], start, base, inner, Exported(inner, ids[..i], outer).value);
      if copied.Fail? {
        ExportedStops(inner, ids, outer, i + 1);
        return copied;
      }
      i := i + 1;
    }
    assert ids[..|ids|] == ids;
    r := Ok(());
  }

  /** `ImportDeclaration.typeCheck`. The importer's layer is taken first; a
      fresh parentless layer is made and a child of it entered, so the imported
      file is checked from nothing; a path naming no file then fails the `!!`.
      The listed names are copied and the child layer left again. The fuel
      bounds how deeply imports nest. */
  method CheckImport(ctx: Context, imp: ImportDeclaration, fuel: nat, ghost start: seq<Layer<Type>>, ghost top: nat)
    returns (r: Outcome<()>)
    requires ctx.Valid() && WrittenSince(ctx.typingScope, start, top)
    modifies ctx`typeErrors, ctx`resolvedTypes, ctx`resolvedCalls, ctx`resolvedArguments, ctx`iioTypes,
             ctx`constructedTypes, ctx`declaredFunctions, ctx`completeFunctions, ctx.scope, ctx.typingScope
    ensures ctx.Valid()
    ensures r == Done(ImportChecked(imp, ctx.sourceFiles, old(ctx.TypingEnv()), fuel).result)
    ensures ctx.typeErrors == old(ctx.typeErrors) + ImportChecked(imp, ctx.sourceFiles, old(ctx.TypingEnv()), fuel).errors
    ensures r.Ok? ==> WrittenSince(ctx.typingScope, start, top)
                      && ctx.typingScope.stack == old(ctx.typingScope.stack) && ctx.scope.stack == old(ctx.scope.stack)
                      && ctx.TypingEnv() == ImportChecked(imp, ctx.sourceFiles, old(ctx.TypingEnv()), fuel).result.value
    decreases fuel, 0, 0
  {
    ghost var env := ctx.TypingEnv();
    ghost var before, stack := ctx.typingScope.layers, ctx.typingScope.stack;
    var current := ctx.typingScope.stack[|ctx.typingScope.stack| - 1];
    assert ctx.typingScope.Top() == Some(current);
    var parentless := ctx.typingScope.NewLayer();
    FreshLayerVisible(before, None);
    ctx.typingScope.EnterWith(parentless);
    assert ctx.TypingEnv() == map[];
    if imp.filePath !in ctx.sourceFiles {
      return Fail(NullValue);
    }
    if fuel == 0 {
      return Fail(OutOfFuel);
    }
    r := ImportFile(ctx, ctx.sourceFiles[imp.filePath], imp.ids, fuel - 1, current, start, before, stack, env);
  }

  /** The middle of `ImportDeclaration.typeCheck`, in the child of a fresh
      parentless layer: the imported file checked from nothing, then, if that
      succeeded, the names copied out and the child layer left. */
  method ImportFile(ctx: Context, file: SourceFile, ids: seq<string>, fuel: nat, current: nat, ghost start: seq<Layer<Type>>,
                    ghost before: seq<Layer<Type>>, ghost stack: seq<nat>, ghost outer: map<string, Type>)
    returns (r: Outcome<()>)
    requires ctx.Valid() && WellFormed(before) && current < |before|
    requires ChainKept(start, before, current) && ParentsKept(start, before)
    requires |stack| > 0 && stack[|stack| - 1] == current && ctx.typingScope.stack == stack + [|before| + 1]
    requires ctx.typingScope.layers == before + [Layer(map[], None), Layer(map[], Some(|before|))]
    requires Visible(before, Some(current)) == outer
    modifies ctx`typeErrors, ctx`resolvedTypes, ctx`resolvedCalls, ctx`resolvedArguments, ctx`iioTypes,
             ctx`constructedTypes, ctx`declaredFunctions, ctx`completeFunctions, ctx.scope, ctx.typingScope
    ensures ctx.Valid()
    ensures r == Done(Exporting(FileChecked(file, ctx.sourceFiles, old(ctx.TypingEnv()), fuel), ids, outer).result)
    ensures ctx.typeErrors == old(ctx.typeErrors) + Exporting(FileChecked(file, ctx.sourceFiles, old(ctx.TypingEnv()), fuel), ids, outer).errors
    ensures r.Ok? ==> WrittenSince(ctx.typingScope, start, current)
                      && ctx.typingScope.stack == stack && ctx.scope.stack == old(ctx.scope.stack)
                      && ctx.TypingEnv() == Exporting(FileChecked(file, ctx.sourceFiles, old(ctx.TypingEnv()), fuel), ids, outer).result.value
    decreases fuel, 3, 0
  {
    ghost var inner := FileChecked(file, ctx.sourceFiles, ctx.TypingEnv(), fuel);
    var checked := CheckFile(ctx, file, fuel, ctx.typingScope.layers, |before| + 1);
    if checked.Fail? {
      return checked;
    }
    r := ExportAndLeave(ctx, current, ids, start, before, stack, inner.result.value, outer);
  }

  /** The end of `ImportDeclaration.typeCheck`, once the imported file checked:
      the listed names are copied into the importer's layer `current` and the
      imported file's layer is left. Nothing the importer sees was written
      while the imported file was checked, since that file's lookups start from
      a parentless layer. */
  method ExportAndLeave(ctx: Context, current: nat, ids: seq<string>, ghost start: seq<Layer<Type>>,
                        ghost before: seq<Layer<Type>>, ghost stack: seq<nat>,
                        ghost inner: map<string, Type>, ghost outer: map<string, Type>) returns (r: Outcome<()>)
    requires ctx.Valid() && WellFormed(before) && current < |before|
    requires ChainKept(start, before, current) && ParentsKept(start, before)
    requires |stack| > 0 && stack[|stack| - 1] == current && ctx.typingScope.stack == stack + [|before| + 1]
    requires ChainKept(before + [Layer(map[], None), Layer(map[], Some(|before|))], ctx.typingScope.layers, |before| + 1)
    requires ParentsKept(before + [Layer(map[], None), Layer(map[], Some(|before|))], ctx.typingScope.layers)
    requires ctx.TypingEnv() == inner && Visible(before, Some(current)) == outer
    modifies ctx.typingScope
    ensures ctx.Valid()
    ensures r == Done(Exported(inner, ids, outer))
    ensures r.Ok? ==> WrittenSince(ctx.typingScope, start, current) && ctx.typingScope.stack == stack
                      && ctx.TypingEnv() == Exported(inner, ids, outer).value
  {
    FreshChainKeepsOlder(before, ctx.typingScope.layers);
    ExtendsKeepsVisible(before, ctx.typingScope.layers, current);
    ExtendsIsChainKept(before, ctx.typingScope.layers, current);
    ChainKeptTransitive(start, before, ctx.typingScope.layers, current);
    r := ExportIds(ctx, current, ids, start, |before|, inner, outer);
    if r.Fail? {
      return;
    }
    var left := ctx.typingScope.Leave();
    assert ctx.typingScope.stack == stack;
    assert ctx.typingScope.Top() == Some(current);
  }

  /** `imports.forEach(ImportDeclaration::typeCheck)`. */
  method CheckImports(ctx: Context, imports: seq<ImportDeclaration>, fuel: nat, ghost start: seq<Layer<Type>>, ghost top: nat)
    returns (r: Outcome<()>)
    requires ctx.Valid() && WrittenSince(ctx.typingScope, start, top)
    modifies ctx`typeErrors, ctx`resolvedTypes, ctx`resolvedCalls, ctx`resolvedArguments, ctx`iioTypes,
             ctx`constructedTypes, ctx`declaredFunctions, ctx`completeFunctions, ctx.scope, ctx.typingScope
    ensures ctx.Valid()
    ensures r == Done(ImportsChecked(imports, ctx.sourceFiles, old(ctx.TypingEnv()), fuel).result)
    ensures ctx.typeErrors == old(ctx.typeErrors) + ImportsChecked(imports, ctx.sourceFiles, old(ctx.TypingEnv()), fuel).errors
    ensures r.Ok? ==> WrittenSince(ctx.typingScope, start, top)
                      && ctx.typingScope.stack == old(ctx.typingScope.stack) && ctx.scope.stack == old(ctx.scope.stack)
                      && ctx.TypingEnv() == ImportsChecked(imports, ctx.sourceFiles, old(ctx.TypingEnv()), fuel).result.value
    decreases fuel, 1, 1
  {
    ghost var env := ctx.TypingEnv();
    ghost var stack := ctx.typingScope.stack;
    assert imports[..0] == [];
    var i := 0;
    while i < |imports|
      invariant 0 <= i <= |imports|
      invariant ctx.Valid() && ctx.typingScope.stack == stack && ctx.scope.stack == old(ctx.scope.stack)
      invariant WrittenSince(ctx.typingScope, start, top)
      invariant ImportsChecked(imports[..i], ctx.sourceFiles, env, fuel).result.Ok?
      invariant ctx.typeErrors == old(ctx.typeErrors) + ImportsChecked(imports[..i], ctx.sourceFiles, env, fuel).errors
      invariant ctx.TypingEnv() == ImportsChecked(imports[..i], ctx.sourceFiles, env, fuel).result.value
    {
      var imported := CheckNextImport(ctx, imports, i, fuel, env, old(ctx.typeErrors), start, top);
      if imported.Fail? {
        ImportsCheckedStops(imports, ctx.sourceFiles, env, fuel, i + 1);
        return imported;
      }
      i := i + 1;
    }
    assert imports[..|imports|] == imports;
    r := Ok(());
  }

  /** One pass of the import loop: the import at `i`, after those before it. */
  method CheckNextImport(ctx: Context, imports: seq<ImportDeclaration>, i: nat, fuel: nat, ghost env: map<string, Type>,
                         ghost base: seq<TypeError>, ghost start: seq<Layer<Type>>, ghost top: nat)
    returns (r: Outcome<()>)
    requires ctx.Valid() && WrittenSince(ctx.typingScope, start, top)
    requires i < |imports| && ImportsChecked(imports[..i], ctx.sourceFiles, env, fuel).result.Ok?
    requires ctx.typeErrors == base + ImportsChecked(imports[..i], ctx.sourceFiles, env, fuel).errors
    requires ctx.TypingEnv() == ImportsChecked(imports[..i], ctx.sourceFiles, env, fuel).result.value
    modifies ctx`typeErrors, ctx`resolvedTypes, ctx`resolvedCalls, ctx`resolvedArguments, ctx`iioTypes,
             ctx`constructedTypes, ctx`declaredFunctions, ctx`completeFunctions, ctx.scope, ctx.typingScope
    ensures ctx.Valid()
    ensures r == Done(ImportsChecked(imports[..i + 1], ctx.sourceFiles, env, fuel).result)
    ensures ctx.typeErrors == base + ImportsChecked(imports[..i + 1], ctx.sourceFiles, env, fuel).errors
    ensures r.Ok? ==> WrittenSince(ctx.typingScope, start, top)
                      && ctx.typingScope.stack == old(ctx.typingScope.stack) && ctx.scope.stack == old(ctx.scope.stack)
                      && ctx.TypingEnv() == ImportsChecked(imports[..i + 1], ctx.sourceFiles, env, fuel).result.value
    decreases fuel, 1, 0
  {
    ghost var done := ImportsChecked(imports[..i], ctx.sourceFiles, env, fuel);
    ImportsCheckedStep(imports, ctx.sourceFiles, env, fuel, i);
    r := CheckImport(ctx, imports[i], fuel, start, top);
    Appended(base, done.errors, ImportChecked(imports[i], ctx.sourceFiles, done.result.value, fuel).errors);
  }

  // ------------------------------------------------------------ declarations

  /** The phases after the imports: type declarations, function declarations,
      then statements and bodies. */
  method CheckDeclared(ctx: Context, file: SourceFile, ghost start: seq<Layer<Type>>, ghost top: nat)
    returns (r: Outcome<()>)
    requires ctx.Valid() && WrittenSince(ctx.typingScope, start, top)
    modifies ctx`typeErrors, ctx`resolvedTypes, ctx`resolvedCalls, ctx`resolvedArguments, ctx`iioTypes,
             ctx`constructedTypes, ctx`declaredFunctions, ctx`completeFunctions, ctx.scope, ctx.typingScope
    ensures ctx.Valid()
    ensures r == Done(Declared(file, old(ctx.TypingEnv())).result)
    ensures ctx.typeErrors == old(ctx.typeErrors) + Declared(file, old(ctx.TypingEnv())).errors
    ensures r.Ok? ==> WrittenSince(ctx.typingScope, start, top)
                      && ctx.typingScope.stack == old(ctx.typingScope.stack) && ctx.scope.stack == old(ctx.scope.stack)
                      && ctx.TypingEnv() == Declared(file, old(ctx.TypingEnv())).result.value
  {
    ghost var env := ctx.TypingEnv();
    r := DeclareTypes(ctx, file.types, start, top);
    if r.Fail? {
      return;
    }
    ghost var types := TypesDeclared(file.types, env);
    r := DeclareFunctions(ctx, file.functions, start, top);
    if r.Fail? {
      return;
    }
    ghost var checks := Checks(file, FunctionsDeclared(file.functions, types.result.value).value);
    r := CheckStatements(ctx, file, start, top);
    Appended(old(ctx.typeErrors), types.errors, checks.errors);
  }

  /** `types.forEach(TypeDeclaration::declareType)`. */
  method DeclareTypes(ctx: Context, ds: seq<TypeDeclaration>, ghost start: seq<Layer<Type>>, ghost top: nat)
    returns (r: Outcome<()>)
    requires ctx.Valid() && WrittenSince(ctx.typingScope, start, top)
    modifies ctx`typeErrors, ctx`completeFunctions, ctx.typingScope
    ensures ctx.Valid() && ctx.typingScope.stack == old(ctx.typingScope.stack)
    ensures r == Done(TypesDeclared(ds, old(ctx.TypingEnv())).result)
    ensures ctx.typeErrors == old(ctx.typeErrors) + TypesDeclared(ds, old(ctx.TypingEnv())).errors
    ensures r.Ok? ==> WrittenSince(ctx.typingScope, start, top)
                      && ctx.TypingEnv() == TypesDeclared(ds, old(ctx.TypingEnv())).result.value
  {
    ghost var env := ctx.TypingEnv();
    ghost var stack := ctx.typingScope.stack;
    assert ds[..0] == [];
    var i := 0;
    while i < |ds|
      invariant 0 <= i <= |ds|
      invariant ctx.Valid() && ctx.typingScope.stack == stack
      invariant WrittenSince(ctx.typingScope, start, top)
      invariant TypesDeclared(ds[..i], env).result.Ok?
      invariant ctx.typeErrors == old(ctx.typeErrors) + TypesDeclared(ds[..i], env).errors
      invariant ctx.TypingEnv() == TypesDeclared(ds[..i], env).result.value
    {
      ghost var done := TypesDeclared(ds[..i], env);
      TypesDeclaredStep(ds, i, env);
      var declared := DeclareType(ctx, ds[i], start, top);
      Appended(old(ctx.typeErrors), done.errors, TypeDeclared(ds[i], done.result.value).errors);
      if declared.Fail? {
        TypesDeclaredStops(ds, i + 1, env);
        return declared;
      }
      i := i + 1;
    }
    assert ds[..|ds|] == ds;
    r := Ok(());
  }

  /** `functions.forEach(FunctionDeclaration::declareFunction)`. */
  method DeclareFunctions(ctx: Context, ds: seq<FunctionDeclaration>, ghost start: seq<Layer<Type>>, ghost top: nat)
    returns (r: Outcome<()>)
    requires ctx.Valid() && WrittenSince(ctx.typingScope, start, top)
    modifies ctx`declaredFunctions, ctx.typingScope
    ensures ctx.Valid() && ctx.typingScope.stack == old(ctx.typingScope.stack)
    ensures r == Done(FunctionsDeclared(ds, old(ctx.TypingEnv())))
    ensures r.Ok? ==> WrittenSince(ctx.typingScope, start, top)
                      && ctx.TypingEnv() == FunctionsDeclared(ds, old(ctx.TypingEnv())).value
  {
    ghost var env := ctx.TypingEnv();
    ghost var stack := ctx.typingScope.stack;
    assert ds[..0] == [];
    var i := 0;
    while i < |ds|
      invariant 0 <= i <= |ds|
      invariant ctx.Valid() && ctx.typingScope.stack == stack
      invariant WrittenSince(ctx.typingScope, start, top)
      invariant FunctionsDeclared(ds[..i], env).Ok?
      invariant ctx.TypingEnv() == FunctionsDeclared(ds[..i], env).value
    {
      FunctionsDeclaredStep(ds, i, env);
      var declared := DeclareFunction(ctx, ds[i], start, top);
      if declared.Fail? {
        FunctionsDeclaredStops(ds, i + 1, env);
        return declared;
      }
      i := i + 1;
    }
    assert ds[..|ds|] == ds;
    r := Ok(());
  }

  /** The top-level statements, then every function body against the bindings
      they leave. */
  method CheckStatements(ctx: Context, file: SourceFile, ghost start: seq<Layer<Type>>, ghost top: nat)
    returns (r: Outcome<()>)
    requires ctx.Valid() && WrittenSince(ctx.typingScope, start, top)
    modifies ctx`typeErrors, ctx`resolvedTypes, ctx`resolvedCalls, ctx`resolvedArguments, ctx`iioTypes,
             ctx`constructedTypes, ctx.scope, ctx.typingScope
    ensures ctx.Valid()
    ensures r == Done(Checks(file, old(ctx.TypingEnv())).result)
    ensures ctx.typeErrors == old(ctx.typeErrors) + Checks(file, old(ctx.TypingEnv())).errors
    ensures r.Ok? ==> WrittenSince(ctx.typingScope, start, top)
                      && ctx.typingScope.stack == old(ctx.typingScope.stack) && ctx.scope.stack == old(ctx.scope.stack)
                      && ctx.TypingEnv() == Checks(file, old(ctx.TypingEnv())).result.value
  {
    ghost var env := ctx.TypingEnv();
    r := CheckAllSince(ctx, file.statements, start, top);
    if r.Fail? {
      return;
    }
    ghost var checked := CheckedAll(file.statements, env);
    r := CheckBodies(ctx, file.functions, start, top);
    Appended(old(ctx.typeErrors), checked.errors, BodiesChecked(file.functions, checked.result.value).errors);
  }

  /** `statements.forEach(Statement::typeCheck)`, keeping the frame since
      `start`: statements write only the top layer. */
  method CheckAllSince(ctx: Context, ss: seq<Stmt>, ghost start: seq<Layer<Type>>, ghost top: nat)
    returns (r: Outcome<()>)
    requires ctx.Valid() && WrittenSince(ctx.typingScope, start, top)
    modifies ctx`typeErrors, ctx`resolvedTypes, ctx`resolvedCalls, ctx`resolvedArguments, ctx`iioTypes,
             ctx`constructedTypes, ctx.scope, ctx.typingScope
    ensures ctx.Valid()
    ensures r == Done(CheckedAll(ss, old(ctx.TypingEnv())).result)
    ensures ctx.typeErrors == old(ctx.typeErrors) + CheckedAll(ss, old(ctx.TypingEnv())).errors
    ensures r.Ok? ==> WrittenSince(ctx.typingScope, start, top)
                      && ctx.typingScope.stack == old(ctx.typingScope.stack) && ctx.scope.stack == old(ctx.scope.stack)
                      && ctx.TypingEnv() == CheckedAll(ss, old(ctx.TypingEnv())).result.value
  {
    r := TypeCheckAll(ctx, ss);
    if r.Ok? {
      ChainKeptThenAbove(start, old(ctx.typingScope.layers), ctx.typingScope.layers, ctx.typingScope.stack);
    }
  }

  /** One function body, keeping the frame since `start`: the body's layer is
      popped, so no existing layer changes. */
  method CheckBodySince(ctx: Context, d: FunctionDeclaration, ghost start: seq<Layer<Type>>, ghost top: nat)
    returns (r: Outcome<()>)
    requires ctx.Valid() && WrittenSince(ctx.typingScope, start, top)
    modifies ctx`typeErrors, ctx`resolvedTypes, ctx`resolvedCalls, ctx`resolvedArguments, ctx`iioTypes,
             ctx`constructedTypes, ctx.scope, ctx.typingScope
    ensures ctx.Valid()
    ensures r == Done(BodyChecked(d, old(ctx.TypingEnv())).result)
    ensures ctx.typeErrors == old(ctx.typeErrors) + BodyChecked(d, old(ctx.TypingEnv())).errors
    ensures r.Ok? ==> WrittenSince(ctx.typingScope, start, top)
                      && ctx.typingScope.stack == old(ctx.typingScope.stack) && ctx.scope.stack == old(ctx.scope.stack)
                      && ctx.TypingEnv() == old(ctx.TypingEnv())
  {
    r := CheckBody(ctx, d);
    if r.Ok? {
      ExtendsIsAbove(old(ctx.typingScope.layers), ctx.typingScope.layers, ctx.typingScope.stack);
      ChainKeptThenAbove(start, old(ctx.typingScope.layers), ctx.typingScope.layers, ctx.typingScope.stack);
    }
  }

  /** `functions.forEach(FunctionDeclaration::typeCheckBody)`. */
  method CheckBodies(ctx: Context, ds: seq<FunctionDeclaration>, ghost start: seq<Layer<Type>>, ghost top: nat)
    returns (r: Outcome<()>)
    requires ctx.Valid() && WrittenSince(ctx.typingScope, start, top)
    modifies ctx`typeErrors, ctx`resolvedTypes, ctx`resolvedCalls, ctx`resolvedArguments, ctx`iioTypes,
             ctx`constructedTypes, ctx.scope, ctx.typingScope
    ensures ctx.Valid()
    ensures r == Done(BodiesChecked(ds, old(ctx.TypingEnv())).result)
    ensures ctx.typeErrors == old(ctx.typeErrors) + BodiesChecked(ds, old(ctx.TypingEnv())).errors
    ensures r.Ok? ==> WrittenSince(ctx.typingScope, start, top)
                      && ctx.typingScope.stack == old(ctx.typingScope.stack) && ctx.scope.stack == old(ctx.scope.stack)
                      && ctx.TypingEnv() == old(ctx.TypingEnv())
  {
    ghost var env := ctx.TypingEnv();
    ghost var stack := ctx.typingScope.stack;
    assert ds[..0] == [];
    var i := 0;
    while i < |ds|
      invariant 0 <= i <= |ds|
      invariant ctx.Valid() && ctx.typingScope.stack == stack && ctx.scope.stack == old(ctx.scope.stack)
      invariant WrittenSince(ctx.typingScope, start, top)
      invariant BodiesChecked(ds[..i], env).result.Ok?
      invariant ctx.typeErrors == old(ctx.typeErrors) + BodiesChecked(ds[..i], env).errors
      invariant ctx.TypingEnv() == env
    {
      ghost var done := BodiesChecked(ds[..i], env);
      BodiesCheckedStep(ds, i, env);
      var checked := CheckBodySince(ctx, ds[i], start, top);
      Appended(old(ctx.typeErrors), done.errors, BodyChecked(ds[i], env).errors);
      if checked.Fail? {
        BodiesCheckedStops(ds, i + 1, env);
        return checked;
      }
      i := i + 1;
    }
    assert ds[..|ds|] == ds;
    r := Ok(());
  }
}
