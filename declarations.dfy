/** The declaration phases as they run against the shared `Context`:
    `declareType` of the three kinds of type declaration, `declareFunction` and
    `typeCheckBody` of a function declaration, and `defineFunctionType` for a
    list of functions. Each method is proved to follow its rule in
    `DeclarationRules`. */
module Declarations {
  import opened Wrappers
  import opened Syntax
  import opened BuiltIns
  import opened Types
  import opened Diagnostics
  import opened Overloads
  import opened Annotations
  import opened Values
  import opened Scopes
  import opened Context
  import opened TypingRules
  import opened DeclarationRules
  import opened Checker

  /** Since `start`, the typing stack's top is still `top`, and of the layers
      `start` held only those on the chain of `top` may hold new bindings; no
      parent link changed. What every declaration phase keeps. */
  ghost predicate WrittenSince(ts: Scope<Type>, start: seq<Layer<Type>>, top: nat)
    reads ts
  {
    |ts.stack| > 0 && ts.stack[|ts.stack| - 1] == top
    && ChainKept(start, ts.layers, top) && ParentsKept(start, ts.layers)
  }

  /** `InterfaceDeclaration.completeFunctions`, empty until something is added. */
  function StubsOf(completeFunctions: map<nat, seq<Function>>, node: nat): seq<Function>
  {
    if node in completeFunctions then completeFunctions[node] else []
  }

  /** `defineFunctionType` as its rule states it on the visible bindings. Only
      layers on the chain of the top one, `top`, are written, so the frame since
      `start` stays one that only wrote that chain. */
  method DefineVariant(ctx: Context, name: string, impl: Function, ghost start: seq<Layer<Type>>, ghost top: nat)
    returns (r: Outcome<()>)
    requires ctx.Valid() && WrittenSince(ctx.typingScope, start, top)
    modifies ctx.typingScope
    ensures ctx.Valid() && ctx.typingScope.stack == old(ctx.typingScope.stack)
    ensures r == Done(FunctionTypeDefined(old(ctx.TypingEnv()), name, impl))
    ensures r.Ok? ==> WrittenSince(ctx.typingScope, start, top)
                      && ctx.TypingEnv() == FunctionTypeDefined(old(ctx.TypingEnv()), name, impl).value
  {
    ghost var before := ctx.typingScope.layers;
    assert WellFormed(before);
    r := ctx.DefineFunctionType(name, impl);
    if r.Ok? {
      assert ctx.typingScope.stack[|ctx.typingScope.stack| - 1] == top;
      assert ChainKept(before, ctx.typingScope.layers, top);
      ChainKeptTransitive(start, before, ctx.typingScope.layers, top);
    }
  }

  /** `defineFunctionType` for each function in turn, as the built-ins are
      defined. */
  method DefineFunctionTypes(ctx: Context, fs: seq<Function>, ghost start: seq<Layer<Type>>, ghost top: nat)
    returns (r: Outcome<()>)
    requires ctx.Valid() && WrittenSince(ctx.typingScope, start, top)
    modifies ctx.typingScope
    ensures ctx.Valid() && ctx.typingScope.stack == old(ctx.typingScope.stack)
    ensures r == Done(FunctionTypesDefined(old(ctx.TypingEnv()), fs))
    ensures r.Ok? ==> WrittenSince(ctx.typingScope, start, top)
                      && ctx.TypingEnv() == FunctionTypesDefined(old(ctx.TypingEnv()), fs).value
  {
    ghost var env := ctx.TypingEnv();
    ghost var stack := ctx.typingScope.stack;
    assert fs[..0] == [];
    var i := 0;
    while i < |fs|
      invariant 0 <= i <= |fs|
      invariant ctx.Valid() && ctx.typingScope.stack == stack
      invariant FunctionTypesDefined(env, fs[..i]).Ok? && ctx.TypingEnv() == FunctionTypesDefined(env, fs[..i]).value
      invariant WrittenSince(ctx.typingScope, start, top)
    {
      FunctionTypesDefinedStep(env, fs, i);
      var defined := DefineVariant(ctx, fs[i].name, fs[i], start, top);
      if defined.Fail? {
        FunctionTypesDefinedStops(env, fs, i + 1);
        return defined;
      }
      i := i + 1;
    }
    assert fs[..|fs|] == fs;
    r := Ok(());
  }

  // ---------------------------------------------------------------- types

  /** `TypeDeclaration.declareType`. */
  method DeclareType(ctx: Context, d: TypeDeclaration, ghost start: seq<Layer<Type>>, ghost top: nat)
    returns (r: Outcome<()>)
    requires ctx.Valid() && WrittenSince(ctx.typingScope, start, top)
    modifies ctx`typeErrors, ctx`completeFunctions, ctx.typingScope
    ensures ctx.Valid() && ctx.typingScope.stack == old(ctx.typingScope.stack)
    ensures r == Done(TypeDeclared(d, old(ctx.TypingEnv())).result)
    ensures ctx.typeErrors == old(ctx.typeErrors) + TypeDeclared(d, old(ctx.TypingEnv())).errors
    ensures r.Ok? ==> WrittenSince(ctx.typingScope, start, top)
                      && ctx.TypingEnv() == TypeDeclared(d, old(ctx.TypingEnv())).result.value
  {
    match d
    case DataTypeDeclaration(name, fields, loc) =>
      r := DeclareDataType(ctx, name, fields, loc, start, top);
    case EnumTypeDeclaration(name, genericParameter, subtypes, symbols) =>
      r := DeclareEnum(ctx, name, genericParameter, subtypes, symbols, start, top);
    case InterfaceDeclaration(node, name, signatures) =>
      r := DeclareInterface(ctx, node, name, signatures, start, top);
  }

  /** `DataTypeDeclaration.declareType`: the record is bound with its fields'
      types. */
  method DeclareDataType(ctx: Context, name: string, fields: seq<Annotated>, loc: Loc,
                         ghost start: seq<Layer<Type>>, ghost top: nat) returns (r: Outcome<()>)
    requires ctx.Valid() && WrittenSince(ctx.typingScope, start, top)
    modifies ctx`typeErrors, ctx.typingScope
    ensures ctx.Valid() && ctx.typingScope.stack == old(ctx.typingScope.stack)
    ensures r == Ok(())
    ensures ctx.typeErrors == old(ctx.typeErrors) + DataTypeDeclared(name, fields, loc, old(ctx.TypingEnv())).errors
    ensures WrittenSince(ctx.typingScope, start, top)
    ensures ctx.TypingEnv() == DataTypeDeclared(name, fields, loc, old(ctx.TypingEnv())).result.value
  {
    var fieldTypes := ResolveFields(ctx, fields, loc);
    r := DefineInChain(ctx, name, DataType(name, fieldTypes), start, top);
  }

  /** `define` in the top layer, which is on its own chain: the frame since
      `start` stays one that only wrote that chain. */
  method DefineInChain(ctx: Context, id: string, t: Type, ghost start: seq<Layer<Type>>, ghost top: nat)
    returns (r: Outcome<()>)
    requires ctx.Valid() && WrittenSince(ctx.typingScope, start, top)
    modifies ctx.typingScope
    ensures ctx.Valid() && ctx.typingScope.stack == old(ctx.typingScope.stack) && r == Ok(())
    ensures WrittenSince(ctx.typingScope, start, top)
    ensures ctx.TypingEnv() == old(ctx.TypingEnv())[id := t]
  {
    r := ctx.typingScope.Define(id, t);
    ChainKeptTransitive(start, old(ctx.typingScope.layers), ctx.typingScope.layers, top);
  }

  /** The field loop of `declareType`: each annotation is resolved in turn; one
      that names no type becomes `Nothing` and adds an `UndeclaredType`. */
  method ResolveFields(ctx: Context, fields: seq<Annotated>, loc: Loc) returns (fieldTypes: seq<Field>)
    requires ctx.Valid()
    modifies ctx`typeErrors
    ensures fieldTypes == FieldTypes(ctx.TypingEnv(), fields, loc).0
    ensures ctx.typeErrors == old(ctx.typeErrors) + FieldTypes(ctx.TypingEnv(), fields, loc).1
  {
    var env := ctx.TypingEnv();
    fieldTypes := [];
    assert fields[..0] == [];
    var i := 0;
    while i < |fields|
      invariant 0 <= i <= |fields|
      invariant |fieldTypes| == i
      invariant forall k :: 0 <= k < i ==> fieldTypes[k] == Field(fields[k].name, FieldType(env, fields[k].annotation))
      invariant ctx.typeErrors == old(ctx.typeErrors) + UndeclaredTypes(env, fields[..i], loc)
    {
      UndeclaredTypesPrefix(env, fields, i, loc);
      var annotated := ToType(env, fields[i].annotation);
      var t := NothingType;
      if annotated.Ok? {
        t := annotated.value;
      } else {
        ctx.typeErrors := ctx.typeErrors + [UndeclaredType(fields[i].annotation.name, loc)];
      }
      assert t == FieldType(env, fields[i].annotation);
      fieldTypes := fieldTypes + [Field(fields[i].name, t)];
      i := i + 1;
    }
    assert fields[..|fields|] == fields;
  }

  /** `EnumTypeDeclaration.declareType`. */
  method DeclareEnum(ctx: Context, name: string, genericParameter: Option<string>, subtypes: seq<TypeAnnotation>,
                     symbols: seq<string>, ghost start: seq<Layer<Type>>, ghost top: nat) returns (r: Outcome<()>)
    requires ctx.Valid() && WrittenSince(ctx.typingScope, start, top)
    modifies ctx.typingScope
    ensures ctx.Valid() && ctx.typingScope.stack == old(ctx.typingScope.stack)
    ensures r == Done(EnumDeclared(name, genericParameter, subtypes, symbols, old(ctx.TypingEnv())))
    ensures r.Ok? ==> WrittenSince(ctx.typingScope, start, top)
                      && ctx.TypingEnv() == EnumDeclared(name, genericParameter, subtypes, symbols, old(ctx.TypingEnv())).value
  {
    var members :- EnumMembers(ctx.TypingEnv(), genericParameter, subtypes, symbols);
    r := DefineInChain(ctx, name, EnumType(name, members), start, top);
  }

  /** `InterfaceDeclaration.declareType`: the interface is bound, then each stub
      of its complete functions is defined as a variant and kept on the
      declaration for evaluation. */
  method DeclareInterface(ctx: Context, node: nat, name: string, signatures: seq<FunctionSignature>,
                          ghost start: seq<Layer<Type>>, ghost top: nat) returns (r: Outcome<()>)
    requires ctx.Valid() && WrittenSince(ctx.typingScope, start, top)
    modifies ctx`completeFunctions, ctx.typingScope
    ensures ctx.Valid() && ctx.typingScope.stack == old(ctx.typingScope.stack)
    ensures r == Done(InterfaceDeclared(name, signatures, old(ctx.TypingEnv())))
    ensures r.Ok? ==> WrittenSince(ctx.typingScope, start, top)
                      && ctx.TypingEnv() == InterfaceDeclared(name, signatures, old(ctx.TypingEnv())).value
    ensures r.Ok? ==>
      var t := InterfaceOf(name, signatures, old(ctx.TypingEnv())).value;
      AllSingle(CompleteFunctions(t.overloads, t))
      && ctx.completeFunctions == old(ctx.completeFunctions)[node :=
           StubsOf(old(ctx.completeFunctions), node) + Singles(CompleteFunctions(t.overloads, t))]
  {
    ghost var env := ctx.TypingEnv();
    var required :- InterfaceOverloads(ctx.TypingEnv(), signatures);
    var t := InterfaceType(name, required);
    var defined := DefineInChain(ctx, name, t, start, top);
    var complete := CompleteFunctions(required, t);
    InterfaceStubsSingle(env, signatures, t);
    // The declaration's list exists from construction, empty.
    ctx.completeFunctions := ctx.completeFunctions[node := StubsOf(ctx.completeFunctions, node)];
    r := DefineStubs(ctx, node, Singles(complete), start, top);
  }

  /** The loop of `declareType` over the stubs: each is defined as a variant of
      its name, then added to the declaration's list. */
  method DefineStubs(ctx: Context, node: nat, stubs: seq<Function>, ghost start: seq<Layer<Type>>, ghost top: nat)
    returns (r: Outcome<()>)
    requires ctx.Valid() && WrittenSince(ctx.typingScope, start, top)
    requires node in ctx.completeFunctions
    modifies ctx`completeFunctions, ctx.typingScope
    ensures ctx.Valid() && ctx.typingScope.stack == old(ctx.typingScope.stack)
    ensures r == Done(FunctionTypesDefined(old(ctx.TypingEnv()), stubs))
    ensures r.Ok? ==> WrittenSince(ctx.typingScope, start, top)
                      && ctx.TypingEnv() == FunctionTypesDefined(old(ctx.TypingEnv()), stubs).value
    ensures r.Ok? ==> ctx.completeFunctions == old(ctx.completeFunctions)[node := old(ctx.completeFunctions)[node] + stubs]
  {
    ghost var env := ctx.TypingEnv();
    ghost var stack := ctx.typingScope.stack;
    ghost var kept := ctx.completeFunctions[node];
    assert stubs[..0] == [] && kept + stubs[..0] == kept;
    var i := 0;
    while i < |stubs|
      invariant 0 <= i <= |stubs|
      invariant ctx.Valid() && ctx.typingScope.stack == stack
      invariant FunctionTypesDefined(env, stubs[..i]).Ok? && ctx.TypingEnv() == FunctionTypesDefined(env, stubs[..i]).value
      invariant WrittenSince(ctx.typingScope, start, top)
      invariant ctx.completeFunctions == old(ctx.completeFunctions)[node := kept + stubs[..i]]
    {
      FunctionTypesDefinedStep(env, stubs, i);
      StubAppended(old(ctx.completeFunctions), node, kept, stubs, i);
      var extended := ctx.completeFunctions[node := ctx.completeFunctions[node] + [stubs[i]]];
      var added := DefineVariant(ctx, stubs[i].name, stubs[i], start, top);
      if added.Fail? {
        FunctionTypesDefinedStops(env, stubs, i + 1);
        return added;
      }
      ctx.completeFunctions := extended;
      i := i + 1;
    }
    assert stubs[..|stubs|] == stubs;
    r := Ok(());
  }

  /** One more stub on the declaration's list, as the loop adds it. */
  lemma StubAppended(m: map<nat, seq<Function>>, node: nat, kept: seq<Function>, stubs: seq<Function>, i: nat)
    requires i < |stubs|
    ensures var before := m[node := kept + stubs[..i]];
      before[node := before[node] + [stubs[i]]] == m[node := kept + stubs[..i + 1]]
  {
    assert stubs[..i + 1] == stubs[..i] + [stubs[i]];
    assert kept + stubs[..i + 1] == (kept + stubs[..i]) + [stubs[i]];
  }

  // ------------------------------------------------------------ functions

  /** `FunctionDeclaration.declareFunction`: the function is built from the
      resolved annotations, kept on the declaration, and defined as a variant of
      its name. */
  method DeclareFunction(ctx: Context, d: FunctionDeclaration, ghost start: seq<Layer<Type>>, ghost top: nat)
    returns (r: Outcome<()>)
    requires ctx.Valid() && WrittenSince(ctx.typingScope, start, top)
    modifies ctx`declaredFunctions, ctx.typingScope
    ensures ctx.Valid() && ctx.typingScope.stack == old(ctx.typingScope.stack)
    ensures r == Done(FunctionDeclared(d, old(ctx.TypingEnv())))
    ensures r.Ok? ==> WrittenSince(ctx.typingScope, start, top)
                      && ctx.TypingEnv() == FunctionDeclared(d, old(ctx.TypingEnv())).value
    ensures DeclaredFunction(d, old(ctx.TypingEnv())).Ok? ==>
              ctx.declaredFunctions == old(ctx.declaredFunctions)[d.node := DeclaredFunction(d, old(ctx.TypingEnv())).value]
  {
    var f :- DeclaredFunction(d, ctx.TypingEnv());
    ctx.declaredFunctions := ctx.declaredFunctions[d.node := f];
    r := DefineVariant(ctx, f.name, f, start, top);
  }

  /** `define` of one parameter in the body's layer, the top one of `stack`:
      the frame since `start` stays one that wrote that layer only. */
  method DefineLocal(ctx: Context, id: string, t: Type, ghost start: seq<Layer<Type>>, ghost stack: seq<nat>)
    returns (r: Outcome<()>)
    requires ctx.Valid() && |stack| > 0 && ctx.typingScope.stack == stack
    requires ExtendsAbove(start, ctx.typingScope.layers, stack)
    modifies ctx.typingScope
    ensures ctx.Valid() && ctx.typingScope.stack == stack && r == Ok(())
    ensures ExtendsAbove(start, ctx.typingScope.layers, stack)
    ensures ctx.TypingEnv() == old(ctx.TypingEnv())[id := t]
  {
    r := ctx.typingScope.Define(id, t);
    ExtendsAboveTransitive(start, old(ctx.typingScope.layers), ctx.typingScope.layers, stack);
  }

  /** The parameters of a body defined in turn in the layer just pushed, each
      annotation resolved against the bindings so far. */
  method DefineParams(ctx: Context, arguments: seq<Annotated>) returns (r: Outcome<()>)
    requires ctx.Valid() && |ctx.typingScope.stack| > 0
    modifies ctx.typingScope
    ensures ctx.Valid() && ctx.typingScope.stack == old(ctx.typingScope.stack)
    ensures r == Done(ParamsBound(old(ctx.TypingEnv()), arguments))
    ensures r.Ok? ==> ExtendsAbove(old(ctx.typingScope.layers), ctx.typingScope.layers, old(ctx.typingScope.stack))
                      && ctx.TypingEnv() == ParamsBound(old(ctx.TypingEnv()), arguments).value
  {
    ghost var env := ctx.TypingEnv();
    ghost var start, stack := ctx.typingScope.layers, ctx.typingScope.stack;
    assert arguments[..0] == [];
    var i := 0;
    while i < |arguments|
      invariant 0 <= i <= |arguments|
      invariant ctx.Valid() && ctx.typingScope.stack == stack
      invariant ExtendsAbove(start, ctx.typingScope.layers, stack)
      invariant ParamsBound(env, arguments[..i]).Ok? && ctx.TypingEnv() == ParamsBound(env, arguments[..i]).value
    {
      ParamsBoundStep(env, arguments, i);
      var t := ToType(ctx.TypingEnv(), arguments[i].annotation);
      if t.Fail? {
        ParamsBoundStops(env, arguments, i + 1);
        return Fail(t.failure);
      }
      var defined := DefineLocal(ctx, arguments[i].name, t.value, start, stack);
      i := i + 1;
    }
    assert arguments[..|arguments|] == arguments;
    r := Ok(());
  }

  /** `FunctionDeclaration.typeCheckBody`: in a pushed layer, the parameters are
      defined, the statements checked, and the return expression's type
      compared with the declared return type at the declaration's range. The
      layer is popped again, so the bindings are as before. */
  method CheckBody(ctx: Context, d: FunctionDeclaration) returns (r: Outcome<()>)
    requires ctx.Valid() && |ctx.typingScope.stack| > 0
    modifies ctx`typeErrors, ctx`resolvedTypes, ctx`resolvedCalls, ctx`resolvedArguments, ctx`iioTypes,
             ctx`constructedTypes, ctx.scope, ctx.typingScope
    ensures ctx.Valid()
    ensures r == Done(BodyChecked(d, old(ctx.TypingEnv())).result)
    ensures ctx.typeErrors == old(ctx.typeErrors) + BodyChecked(d, old(ctx.TypingEnv())).errors
    ensures r.Ok? ==> ScopesKept(ctx) && ctx.TypingEnv() == old(ctx.TypingEnv())
  {
    ghost var layers, stack := ctx.typingScope.layers, ctx.typingScope.stack;
    ghost var env := ctx.TypingEnv();
    assert ctx.typingScope.Top() == TopOf(stack);
    assert env == Visible(layers, TopOf(stack));
    ctx.typingScope.Enter();
    ghost var pushed := Layer(map[], Some(stack[|stack| - 1]));
    r := CheckInside(ctx, d);
    if r.Fail? {
      return;
    }
    PushedLayerAbsorbs(layers, pushed, ctx.typingScope.layers, ctx.typingScope.stack);
    var left := ctx.typingScope.Leave();
    assert ctx.typingScope.stack == stack;
    SameStackSameEnv(layers, ctx.typingScope.layers, stack);
    assert ctx.typingScope.Top() == TopOf(stack);
    assert ctx.TypingEnv() == Visible(ctx.typingScope.layers, TopOf(stack));
  }

  /** `typeCheckBody` between `enter` and `leave`: only the pushed layer is
      written. */
  method CheckInside(ctx: Context, d: FunctionDeclaration) returns (r: Outcome<()>)
    requires ctx.Valid() && |ctx.typingScope.stack| > 0
    modifies ctx`typeErrors, ctx`resolvedTypes, ctx`resolvedCalls, ctx`resolvedArguments, ctx`iioTypes,
             ctx`constructedTypes, ctx.scope, ctx.typingScope
    ensures ctx.Valid()
    ensures r == Done(BodyChecked(d, old(ctx.TypingEnv())).result)
    ensures ctx.typeErrors == old(ctx.typeErrors) + BodyChecked(d, old(ctx.TypingEnv())).errors
    ensures r.Ok? ==> TopWritten(ctx)
  {
    ghost var env := ctx.TypingEnv();
    var params := DefineParams(ctx, d.signature.arguments);
    if params.Fail? {
      return params;
    }
    ghost var first := ctx.typingScope.layers;
    var body := TypeCheckAll(ctx, d.statements);
    if body.Fail? {
      return body;
    }
    ExtendsAboveTransitive(old(ctx.typingScope.layers), first, ctx.typingScope.layers, ctx.typingScope.stack);
    ghost var second := ctx.typingScope.layers;
    ghost var c := CheckedAll(d.statements, ParamsBound(env, d.signature.arguments).value);
    Appended(old(ctx.typeErrors), c.errors, ReturnChecked(d, c.result.value).errors);
    r := CheckReturn(ctx, d);
    if r.Fail? {
      return;
    }
    ExtendsIsAbove(second, ctx.typingScope.layers, ctx.typingScope.stack);
    ExtendsAboveTransitive(old(ctx.typingScope.layers), second, ctx.typingScope.layers, ctx.typingScope.stack);
  }

  /** The end of `typeCheckBody`: the declared return type against the return
      expression's. */
  method CheckReturn(ctx: Context, d: FunctionDeclaration) returns (r: Outcome<()>)
    requires ctx.Valid() && |ctx.typingScope.stack| > 0
    modifies ctx`typeErrors, ctx`resolvedTypes, ctx`resolvedCalls, ctx`resolvedArguments, ctx`iioTypes,
             ctx`constructedTypes, ctx.scope, ctx.typingScope
    ensures ctx.Valid()
    ensures r == Done(ReturnChecked(d, old(ctx.TypingEnv())).result)
    ensures ctx.typeErrors == old(ctx.typeErrors) + ReturnChecked(d, old(ctx.TypingEnv())).errors
    ensures r.Ok? ==> ScopesKept(ctx) && ctx.TypingEnv() == old(ctx.TypingEnv())
  {
    ghost var env, errors := ctx.TypingEnv(), ctx.typeErrors;
    var declared := ToType(ctx.TypingEnv(), d.signature.returnType);
    if declared.Fail? {
      return Fail(declared.failure);
    }
    var actual := TypeOf(ctx, d.returnExpression);
    if actual.Fail? {
      return Fail(actual.failure);
    }
    SameStackSameEnv(old(ctx.typingScope.layers), ctx.typingScope.layers, ctx.typingScope.stack);
    var checked := ctx.CheckType(declared.value, actual.value, d.loc);
    if checked.Fail? {
      return checked;
    }
    Appended(errors, Typed(d.returnExpression, env).errors,
             Incompatibility(declared.value, actual.value, TypingView(env), d.loc).value);
    r := Ok(());
  }
}
