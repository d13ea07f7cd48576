/** The rules of the declaration phases of `SourceFile.typeCheck`: registering
    the built-ins, checking imports, declaring types and functions, and checking
    function bodies. Like the statement rules, each is a pure function of the
    typing bindings visible when it starts; it gives the bindings visible
    afterwards (or the exception the phase stops with) and the diagnostics it
    adds. The methods of `Declarations` and `Files` are proved to follow them. */
module DeclarationRules {
  import opened Wrappers
  import opened Syntax
  import opened BuiltIns
  import opened Types
  import opened Diagnostics
  import opened Overloads
  import opened Annotations
  import opened Values
  import opened TypingRules

  // ---------------------------------------------------------- function types

  /** `defineFunctionType` on the visible bindings: the variant is appended to the
      overload set the name is bound to, or becomes a set of its own when the
      name is unbound. A name bound to anything else fails the cast. */
  function FunctionTypeDefined(env: map<string, Type>, name: string, impl: Function): (r: Outcome<map<string, Type>>)
    ensures r.Fail? <==> name in env && !env[name].OverloadedFunction?
    ensures r.Fail? ==> r.failure == CastFailure
    ensures r.Ok? ==> r.value.Keys == env.Keys + {name}
    ensures r.Ok? ==> forall other :: other in env && other != name ==> r.value[other] == env[other]
    ensures r.Ok? ==> r.value[name] == OverloadedFunction(name, (if name in env then env[name].functions else []) + [impl])
  {
    if name in env then
      var extended :- AddVariant(name, env[name], impl);
      Ok(env[name := extended])
    else
      assert [] + [impl] == [impl];
      Ok(env[name := OverloadedFunction(name, [impl])])
  }

  /** Each function's variant defined in turn under its own name. */
  function FunctionTypesDefined(env: map<string, Type>, fs: seq<Function>): Outcome<map<string, Type>>
    decreases |fs|
  {
    if fs == [] then Ok(env)
    else
      var before :- FunctionTypesDefined(env, fs[..|fs| - 1]);
      FunctionTypeDefined(before, fs[|fs| - 1].name, fs[|fs| - 1])
  }

  lemma FunctionTypesDefinedStep(env: map<string, Type>, fs: seq<Function>, i: nat)
    requires i < |fs| && FunctionTypesDefined(env, fs[..i]).Ok?
    ensures FunctionTypesDefined(env, fs[..i + 1]) == FunctionTypeDefined(FunctionTypesDefined(env, fs[..i]).value, fs[i].name, fs[i])
  {
    assert fs[..i + 1][..i] == fs[..i];
  }

  lemma {:induction false} FunctionTypesDefinedStops(env: map<string, Type>, fs: seq<Function>, i: nat)
    requires i <= |fs| && FunctionTypesDefined(env, fs[..i]).Fail?
    ensures FunctionTypesDefined(env, fs) == FunctionTypesDefined(env, fs[..i])
    decreases |fs| - i
  {
    if i < |fs| {
      assert fs[..i + 1][..i] == fs[..i];
      FunctionTypesDefinedStops(env, fs, i + 1);
    } else {
      assert fs[..i] == fs;
    }
  }

  /** `f` is among the variants bound to its name. */
  predicate HasVariant(env: map<string, Type>, f: Function)
  {
    f.name in env && env[f.name].OverloadedFunction? && f in env[f.name].functions
  }

  /** Defining a variant keeps every variant already there. */
  lemma DefiningKeepsVariants(env: map<string, Type>, name: string, impl: Function, f: Function)
    requires HasVariant(env, f) && FunctionTypeDefined(env, name, impl).Ok?
    ensures HasVariant(FunctionTypeDefined(env, name, impl).value, f)
  {
    if f.name == name {
      assert f in env[name].functions + [impl];
    }
  }

  /** A variant once defined stays in its overload set: later definitions only
      append, so every defined function is among the variants of its name. */
  lemma {:induction false} DefinedVariantsPersist(env: map<string, Type>, fs: seq<Function>)
    requires FunctionTypesDefined(env, fs).Ok?
    ensures forall k :: 0 <= k < |fs| ==> HasVariant(FunctionTypesDefined(env, fs).value, fs[k])
    decreases |fs|
  {
    if fs != [] {
      var last := |fs| - 1;
      var init := fs[..last];
      DefinedVariantsPersist(env, init);
      var before := FunctionTypesDefined(env, init).value;
      var r := FunctionTypesDefined(env, fs).value;
      assert r == FunctionTypeDefined(before, fs[last].name, fs[last]).value;
      forall k | 0 <= k < |fs|
        ensures HasVariant(r, fs[k])
      {
        if k < last {
          assert init[k] == fs[k];
          DefiningKeepsVariants(before, fs[last].name, fs[last], fs[k]);
        } else {
          assert fs[last] in r[fs[last].name].functions;
        }
      }
    }
  }

  // -------------------------------------------------------------- built-ins

  /** The types registered in turn, each under its own name. */
  function Registered(env: map<string, Type>, ts: seq<Type>): (r: map<string, Type>)
    ensures r.Keys == env.Keys + set t | t in ts :: t.name
    decreases |ts|
  {
    if ts == [] then env
    else Registered(env, ts[..|ts| - 1])[ts[|ts| - 1].name := ts[|ts| - 1]]
  }

  lemma RegisteredStep(env: map<string, Type>, ts: seq<Type>, i: nat)
    requires i < |ts|
    ensures Registered(env, ts[..i + 1]) == Registered(env, ts[..i])[ts[i].name := ts[i]]
  {
    assert ts[..i + 1][..i] == ts[..i];
  }

  /** The bindings a file sees once the built-ins are in, before anything of its
      own. */
  function WithBuiltIns(env: map<string, Type>): Outcome<map<string, Type>>
  {
    FunctionTypesDefined(Registered(env, RegisteredTypes), Functions)
  }

  /** The registered types, from nothing: the four built-in types under their
      names. */
  lemma RegisteredFromNothing()
    ensures Registered(map[], RegisteredTypes)
         == map["Any" := AnyType, "Integer" := IntegerType, "String" := StringType, "Boolean" := BooleanType]
  {
    var ts := RegisteredTypes;
    RegisteredStep(map[], ts, 0);
    RegisteredStep(map[], ts, 1);
    RegisteredStep(map[], ts, 2);
    RegisteredStep(map[], ts, 3);
    assert ts[..0] == [] && ts[..4] == ts;
  }

  /** A file checked from nothing, as an imported file is, sees exactly the four
      registered types and the two built-in functions, each in a set of its
      own. */
  lemma BuiltInBindings()
    ensures WithBuiltIns(map[]) == Ok(map[
      "Any" := AnyType, "Integer" := IntegerType, "String" := StringType, "Boolean" := BooleanType,
      "printLine" := OverloadedFunction("printLine", [PrintLineFunction]),
      "readLine" := OverloadedFunction("readLine", [ReadLineFunction])])
  {
    RegisteredFromNothing();
    var types := Registered(map[], RegisteredTypes);
    var first := types["printLine" := OverloadedFunction("printLine", [PrintLineFunction])];
    assert Functions[..0] == [] && Functions[..2] == Functions;
    FunctionTypesDefinedStep(types, Functions, 0);
    assert FunctionTypesDefined(types, Functions[..1]) == Ok(first);
    FunctionTypesDefinedStep(types, Functions, 1);
  }

  // ---------------------------------------------------------- declared types

  /** `DataTypeDeclaration.declareType`: the record is bound with one field per
      annotation, unresolvable ones as `Nothing` with an `UndeclaredType` each. */
  function DataTypeDeclared(name: string, fields: seq<Annotated>, loc: Loc, env: map<string, Type>): Typing<map<string, Type>>
  {
    var (fieldTypes, errors) := FieldTypes(env, fields, loc);
    Typing(Ok(env[name := DataType(name, fieldTypes)]), errors)
  }

  /** `EnumTypeDeclaration.declareType`: the enum of its subtypes and symbols; an
      unresolvable subtype throws. */
  function EnumDeclared(name: string, genericParameter: Option<string>, subtypes: seq<TypeAnnotation>, symbols: seq<string>,
                        env: map<string, Type>): Outcome<map<string, Type>>
  {
    var members :- EnumMembers(env, genericParameter, subtypes, symbols);
    Ok(env[name := EnumType(name, members)])
  }

  /** Every overload set holds exactly one variant, named like the set: what
      `functions.single()` relies on. */
  predicate AllSingle(os: seq<Syntax.Overloads>)
  {
    forall k :: 0 <= k < |os| ==> |os[k].functions| == 1 && os[k].functions[0].name == os[k].name
  }

  /** The single variant of each set, in order. */
  function Singles(os: seq<Syntax.Overloads>): (r: seq<Function>)
    requires AllSingle(os)
    ensures |r| == |os| && forall k :: 0 <= k < |os| ==> r[k] == os[k].functions[0] && r[k].name == os[k].name
  {
    seq(|os|, k requires 0 <= k < |os| => os[k].functions[0])
  }

  /** An interface's stubs never make `single()` throw: each required set holds
      one signature, and completing it keeps one stub per signature. */
  lemma InterfaceStubsSingle(env: map<string, Type>, signatures: seq<FunctionSignature>, self: Type)
    requires InterfaceOverloads(env, signatures).Ok?
    ensures AllSingle(CompleteFunctions(InterfaceOverloads(env, signatures).value, self))
  {
    var required := InterfaceOverloads(env, signatures).value;
    var complete := CompleteFunctions(required, self);
    forall k | 0 <= k < |complete|
      ensures |complete[k].functions| == 1 && complete[k].functions[0].name == complete[k].name
    {
      assert required[k] in required;
      var j :| 0 <= j < |signatures| && SignatureOverloads(env, signatures[j]) == Ok(required[k]);
    }
  }

  /** The interface type a declaration binds. */
  function InterfaceOf(name: string, signatures: seq<FunctionSignature>, env: map<string, Type>): Outcome<Type>
  {
    var required :- InterfaceOverloads(env, signatures);
    Ok(InterfaceType(name, required))
  }

  /** `InterfaceDeclaration.declareType`: the interface is bound, then each stub
      of its complete functions is defined as a variant of its name. */
  function InterfaceDeclared(name: string, signatures: seq<FunctionSignature>, env: map<string, Type>): Outcome<map<string, Type>>
  {
    var t :- InterfaceOf(name, signatures, env);
    InterfaceStubsSingle(env, signatures, t);
    FunctionTypesDefined(env[name := t], Singles(CompleteFunctions(t.overloads, t)))
  }

  /** A declared interface makes each of its functions callable on it: every
      stub, whose first parameter is the interface itself, is a variant of the
      name it requires. */
  lemma InterfaceStubsCallable(name: string, signatures: seq<FunctionSignature>, env: map<string, Type>)
    requires InterfaceDeclared(name, signatures, env).Ok?
    ensures InterfaceOf(name, signatures, env).Ok?
    ensures var t := InterfaceOf(name, signatures, env).value; AllSingle(CompleteFunctions(t.overloads, t))
    ensures var t := InterfaceOf(name, signatures, env).value;
      var r := InterfaceDeclared(name, signatures, env).value;
      forall k :: 0 <= k < |t.overloads| ==>
        var stub := CompleteFunctions(t.overloads, t)[k].functions[0];
        stub.arguments[0] == Parameter("self", t) && t.overloads[k].name in r
        && r[t.overloads[k].name].OverloadedFunction? && stub in r[t.overloads[k].name].functions
  {
    var t := InterfaceOf(name, signatures, env).value;
    InterfaceStubsSingle(env, signatures, t);
    var complete := CompleteFunctions(t.overloads, t);
    DefinedVariantsPersist(env[name := t], Singles(complete));
    forall k | 0 <= k < |t.overloads|
      ensures HasVariant(InterfaceDeclared(name, signatures, env).value, complete[k].functions[0])
    {
      assert Singles(complete)[k] == complete[k].functions[0];
    }
  }

  /** `TypeDeclaration.declareType`, by kind. */
  function TypeDeclared(d: TypeDeclaration, env: map<string, Type>): Typing<map<string, Type>>
  {
    match d
    case DataTypeDeclaration(name, fields, loc) => DataTypeDeclared(name, fields, loc, env)
    case EnumTypeDeclaration(name, genericParameter, subtypes, symbols) =>
      Typing(EnumDeclared(name, genericParameter, subtypes, symbols, env), [])
    case InterfaceDeclaration(_, name, signatures) => Typing(InterfaceDeclared(name, signatures, env), [])
  }

  /** The type declarations in order, each against the bindings the previous ones
      left. */
  function TypesDeclared(ds: seq<TypeDeclaration>, env: map<string, Type>): Typing<map<string, Type>>
    decreases |ds|
  {
    if ds == [] then Typing(Ok(env), [])
    else
      var before := TypesDeclared(ds[..|ds| - 1], env);
      if before.result.Fail? then before
      else Then(before, TypeDeclared(ds[|ds| - 1], before.result.value))
  }

  lemma TypesDeclaredStep(ds: seq<TypeDeclaration>, i: nat, env: map<string, Type>)
    requires i < |ds| && TypesDeclared(ds[..i], env).result.Ok?
    ensures TypesDeclared(ds[..i + 1], env)
         == Then(TypesDeclared(ds[..i], env), TypeDeclared(ds[i], TypesDeclared(ds[..i], env).result.value))
  {
    assert ds[..i + 1][..i] == ds[..i];
  }

  lemma {:induction false} TypesDeclaredStops(ds: seq<TypeDeclaration>, i: nat, env: map<string, Type>)
    requires i <= |ds| && TypesDeclared(ds[..i], env).result.Fail?
    ensures TypesDeclared(ds, env) == TypesDeclared(ds[..i], env)
    decreases |ds| - i
  {
    if i < |ds| {
      assert ds[..i + 1][..i] == ds[..i];
      TypesDeclaredStops(ds, i + 1, env);
    } else {
      assert ds[..i] == ds;
    }
  }

  /** A record declaration binds its name and adds one diagnostic per field whose
      annotation names no type; the other names are left alone. */
  lemma DataTypeBindsName(name: string, fields: seq<Annotated>, loc: Loc, env: map<string, Type>)
    ensures var r := TypeDeclared(DataTypeDeclaration(name, fields, loc), env);
      r.result.Ok? && r.result.value[name].DataType? && |r.result.value[name].fields| == |fields|
      && (r.errors == [] <==> forall k :: 0 <= k < |fields| ==> ToType(env, fields[k].annotation).Ok?)
      && forall other :: other in env && other != name ==> r.result.value[other] == env[other]
  {
    var r := TypeDeclared(DataTypeDeclaration(name, fields, loc), env);
    if forall k :: 0 <= k < |fields| ==> ToType(env, fields[k].annotation).Ok? {
      ResolvedFieldsRaiseNothing(env, fields, loc);
    } else {
      var k :| 0 <= k < |fields| && ToType(env, fields[k].annotation).Fail?;
      UnresolvedFieldRaises(env, fields, loc, k);
    }
  }

  /** One unresolvable field annotation is enough for a diagnostic. */
  lemma {:induction false} UnresolvedFieldRaises(env: map<string, Type>, fields: seq<Annotated>, loc: Loc, k: nat)
    requires k < |fields| && ToType(env, fields[k].annotation).Fail?
    ensures UndeclaredTypes(env, fields, loc) != []
    decreases |fields|
  {
    if k > 0 {
      assert fields[1..][k - 1] == fields[k];
      UnresolvedFieldRaises(env, fields[1..], loc, k - 1);
    }
  }

  // ------------------------------------------------------- declared functions

  /** `FunctionDeclaration.declareFunction`'s function: the parameter and return
      annotations resolved at declaration. */
  function DeclaredFunction(d: FunctionDeclaration, env: map<string, Type>): (r: Outcome<Function>)
    ensures r.Ok? ==> r.value.CustomFunction? && r.value.name == d.signature.name && r.value.declaration == d.node
    ensures r.Ok? <==> Parameters(env, d.signature.arguments).Ok? && ToType(env, d.signature.returnType).Ok?
  {
    var arguments :- Parameters(env, d.signature.arguments);
    var returnType :- ToType(env, d.signature.returnType);
    Ok(CustomFunction(d.signature.name, arguments, returnType, d.statements, d.returnExpression, d.node))
  }

  /** `declareFunction`: the function becomes a variant of its name. */
  function FunctionDeclared(d: FunctionDeclaration, env: map<string, Type>): Outcome<map<string, Type>>
  {
    var f :- DeclaredFunction(d, env);
    FunctionTypeDefined(env, f.name, f)
  }

  /** The function declarations in order. */
  function FunctionsDeclared(ds: seq<FunctionDeclaration>, env: map<string, Type>): Outcome<map<string, Type>>
    decreases |ds|
  {
    if ds == [] then Ok(env)
    else
      var before :- FunctionsDeclared(ds[..|ds| - 1], env);
      FunctionDeclared(ds[|ds| - 1], before)
  }

  lemma FunctionsDeclaredStep(ds: seq<FunctionDeclaration>, i: nat, env: map<string, Type>)
    requires i < |ds| && FunctionsDeclared(ds[..i], env).Ok?
    ensures FunctionsDeclared(ds[..i + 1], env) == FunctionDeclared(ds[i], FunctionsDeclared(ds[..i], env).value)
  {
    assert ds[..i + 1][..i] == ds[..i];
  }

  lemma {:induction false} FunctionsDeclaredStops(ds: seq<FunctionDeclaration>, i: nat, env: map<string, Type>)
    requires i <= |ds| && FunctionsDeclared(ds[..i], env).Fail?
    ensures FunctionsDeclared(ds, env) == FunctionsDeclared(ds[..i], env)
    decreases |ds| - i
  {
    if i < |ds| {
      assert ds[..i + 1][..i] == ds[..i];
      FunctionsDeclaredStops(ds, i + 1, env);
    } else {
      assert ds[..i] == ds;
    }
  }

  /** Two declarations of one name that differ in their parameters are two
      variants of that name, in declaration order. */
  lemma OverloadsInOrder(d1: FunctionDeclaration, d2: FunctionDeclaration, env: map<string, Type>)
    requires d1.signature.name == d2.signature.name && d1.signature.name !in env
    requires DeclaredFunction(d1, env).Ok?
    requires DeclaredFunction(d2, FunctionDeclared(d1, env).value).Ok?
    ensures FunctionsDeclared([d1, d2], env).Ok?
    ensures FunctionsDeclared([d1, d2], env).value[d1.signature.name].functions
         == [DeclaredFunction(d1, env).value, DeclaredFunction(d2, FunctionDeclared(d1, env).value).value]
  {
    assert [d1, d2][..1] == [d1];
    assert [d1][..0] == [];
    var f1 := DeclaredFunction(d1, env).value;
    var first := FunctionDeclared(d1, env).value;
    assert FunctionsDeclared([d1], env) == Ok(first);
    var f2 := DeclaredFunction(d2, first).value;
    assert first[f1.name] == OverloadedFunction(f1.name, [f1]);
    assert FunctionsDeclared([d1, d2], env) == FunctionTypeDefined(first, f2.name, f2);
  }

  // ------------------------------------------------------------ function bodies

  /** The parameters defined in turn in the body's layer, each annotation
      resolved against the bindings so far. */
  function ParamsBound(env: map<string, Type>, arguments: seq<Annotated>): (r: Outcome<map<string, Type>>)
    ensures r.Ok? ==> r.value.Keys == env.Keys + set a | a in arguments :: a.name
    decreases |arguments|
  {
    if arguments == [] then Ok(env)
    else
      var last := arguments[|arguments| - 1];
      var before :- ParamsBound(env, arguments[..|arguments| - 1]);
      var t :- ToType(before, last.annotation);
      assert forall a :: a in arguments <==> a in arguments[..|arguments| - 1] || a == last;
      Ok(before[last.name := t])
  }

  lemma ParamsBoundStep(env: map<string, Type>, arguments: seq<Annotated>, i: nat)
    requires i < |arguments| && ParamsBound(env, arguments[..i]).Ok?
    ensures var before := ParamsBound(env, arguments[..i]).value;
      ParamsBound(env, arguments[..i + 1])
        == match ToType(before, arguments[i].annotation)
           case Ok(t) => Ok(before[arguments[i].name := t])
           case Fail(f) => Fail(f)
  {
    assert arguments[..i + 1][..i] == arguments[..i];
  }

  lemma {:induction false} ParamsBoundStops(env: map<string, Type>, arguments: seq<Annotated>, i: nat)
    requires i <= |arguments| && ParamsBound(env, arguments[..i]).Fail?
    ensures ParamsBound(env, arguments) == ParamsBound(env, arguments[..i])
    decreases |arguments| - i
  {
    if i < |arguments| {
      assert arguments[..i + 1][..i] == arguments[..i];
      ParamsBoundStops(env, arguments, i + 1);
    } else {
      assert arguments[..i] == arguments;
    }
  }

  /** After the parameters and statements: the return annotation is resolved
      against the body's bindings, the return expression typed, and the two
      compared at the declaration's range. */
  function ReturnChecked(d: FunctionDeclaration, local: map<string, Type>): Typing<()>
  {
    match ToType(local, d.signature.returnType)
    case Fail(f) => Typing(Fail(f), [])
    case Ok(declared) =>
      var t := Typed(d.returnExpression, local);
      if t.result.Fail? then Typing(Fail(t.result.failure), t.errors)
      else
        match Incompatibility(declared, t.result.value, TypingView(local), d.loc)
        case Fail(f) => Typing(Fail(f), t.errors)
        case Ok(errors) => Typing(Ok(()), t.errors + errors)
  }

  /** `FunctionDeclaration.typeCheckBody`, in a layer pushed on the bindings of
      the file. */
  function BodyChecked(d: FunctionDeclaration, env: map<string, Type>): Typing<()>
  {
    match ParamsBound(env, d.signature.arguments)
    case Fail(f) => Typing(Fail(f), [])
    case Ok(inner) =>
      var c := CheckedAll(d.statements, inner);
      if c.result.Fail? then Typing(Fail(c.result.failure), c.errors)
      else Then(c, ReturnChecked(d, c.result.value))
  }

  /** A body whose return expression does not fit the declared return type adds
      one `IncompatibleType` at the declaration, after the body's own
      diagnostics. */
  lemma ReturnMismatchReported(d: FunctionDeclaration, local: map<string, Type>, declared: Type, actual: Type)
    requires ToType(local, d.signature.returnType) == Ok(declared)
    requires Typed(d.returnExpression, local).result == Ok(actual)
    requires AssignableFrom(declared, actual, Some(TypingView(local))) == Ok(false)
    ensures ReturnChecked(d, local)
         == Typing(Ok(()), Typed(d.returnExpression, local).errors + [IncompatibleType(declared, actual, d.loc)])
  {
  }

  /** The bodies in order, each against the same bindings: a body's layer is
      popped again. */
  function BodiesChecked(ds: seq<FunctionDeclaration>, env: map<string, Type>): Typing<()>
    decreases |ds|
  {
    if ds == [] then Typing(Ok(()), [])
    else
      var before := BodiesChecked(ds[..|ds| - 1], env);
      if before.result.Fail? then before
      else Then(before, BodyChecked(ds[|ds| - 1], env))
  }

  lemma BodiesCheckedStep(ds: seq<FunctionDeclaration>, i: nat, env: map<string, Type>)
    requires i < |ds| && BodiesChecked(ds[..i], env).result.Ok?
    ensures BodiesChecked(ds[..i + 1], env) == Then(BodiesChecked(ds[..i], env), BodyChecked(ds[i], env))
  {
    assert ds[..i + 1][..i] == ds[..i];
  }

  lemma {:induction false} BodiesCheckedStops(ds: seq<FunctionDeclaration>, i: nat, env: map<string, Type>)
    requires i <= |ds| && BodiesChecked(ds[..i], env).result.Fail?
    ensures BodiesChecked(ds, env) == BodiesChecked(ds[..i], env)
    decreases |ds| - i
  {
    if i < |ds| {
      assert ds[..i + 1][..i] == ds[..i];
      BodiesCheckedStops(ds, i + 1, env);
    } else {
      assert ds[..i] == ds;
    }
  }

  // ------------------------------------------------------------------ imports

  /** The listed names copied, in order, from the imported file's bindings into
      the importer's; a name the imported file does not bind throws. */
  function Exported(inner: map<string, Type>, ids: seq<string>, outer: map<string, Type>): (r: Outcome<map<string, Type>>)
    ensures r.Fail? <==> exists k :: 0 <= k < |ids| && ids[k] !in inner
    ensures r.Fail? ==> r.failure.UnknownName? && r.failure.id !in inner
    ensures r.Ok? ==> r.value.Keys == outer.Keys + set id | id in ids
    ensures r.Ok? ==> forall id :: id in r.value ==> r.value[id] == if id in ids then inner[id] else outer[id]
    decreases |ids|
  {
    if ids == [] then Ok(outer)
    else
      var last := ids[|ids| - 1];
      var before :- Exported(inner, ids[..|ids| - 1], outer);
      assert forall id :: id in ids <==> id in ids[..|ids| - 1] || id == last;
      if last !in inner then Fail(UnknownName(last)) else Ok(before[last := inner[last]])
  }

  lemma ExportedStep(inner: map<string, Type>, ids: seq<string>, outer: map<string, Type>, i: nat)
    requires i < |ids| && Exported(inner, ids[..i], outer).Ok?
    ensures Exported(inner, ids[..i + 1], outer)
         == if ids[i] in inner then Ok(Exported(inner, ids[..i], outer).value[ids[i] := inner[ids[i]]])
            else Fail(UnknownName(ids[i]))
  {
    assert ids[..i + 1][..i] == ids[..i];
  }

  lemma {:induction false} ExportedStops(inner: map<string, Type>, ids: seq<string>, outer: map<string, Type>, i: nat)
    requires i <= |ids| && Exported(inner, ids[..i], outer).Fail?
    ensures Exported(inner, ids, outer) == Exported(inner, ids[..i], outer)
    decreases |ids| - i
  {
    if i < |ids| {
      assert ids[..i + 1][..i] == ids[..i];
      ExportedStops(inner, ids, outer, i + 1);
    } else {
      assert ids[..i] == ids;
    }
  }

  /** `ImportDeclaration.typeCheck`: the named file is checked from nothing, in a
      child of a fresh parentless layer, and the listed names are copied into the
      importer's layer. A path naming no file fails the `!!`; the fuel bounds
      how deep imports may nest, where the source recurses until its stack
      overflows. */
  function ImportChecked(imp: ImportDeclaration, files: map<string, SourceFile>, env: map<string, Type>, fuel: nat)
    : Typing<map<string, Type>>
    decreases fuel, 0
  {
    if imp.filePath !in files then Typing(Fail(NullValue), [])
    else if fuel == 0 then Typing(Fail(OutOfFuel), [])
    else
      var inner := FileChecked(files[imp.filePath], files, map[], fuel - 1);
      Exporting(inner, imp.ids, env)
  }

  /** The importer's side of an import, given the imported file's check. */
  function Exporting(inner: Typing<map<string, Type>>, ids: seq<string>, env: map<string, Type>): Typing<map<string, Type>>
  {
    if inner.result.Fail? then inner
    else Typing(Exported(inner.result.value, ids, env), inner.errors)
  }

  /** The imports in order. */
  function ImportsChecked(imports: seq<ImportDeclaration>, files: map<string, SourceFile>, env: map<string, Type>, fuel: nat)
    : Typing<map<string, Type>>
    decreases fuel, 1, |imports|
  {
    if imports == [] then Typing(Ok(env), [])
    else
      var before := ImportsChecked(imports[..|imports| - 1], files, env, fuel);
      if before.result.Fail? then before
      else Then(before, ImportChecked(imports[|imports| - 1], files, before.result.value, fuel))
  }

  lemma ImportsCheckedStep(imports: seq<ImportDeclaration>, files: map<string, SourceFile>, env: map<string, Type>, fuel: nat, i: nat)
    requires i < |imports| && ImportsChecked(imports[..i], files, env, fuel).result.Ok?
    ensures ImportsChecked(imports[..i + 1], files, env, fuel)
         == Then(ImportsChecked(imports[..i], files, env, fuel),
                 ImportChecked(imports[i], files, ImportsChecked(imports[..i], files, env, fuel).result.value, fuel))
  {
    assert imports[..i + 1][..i] == imports[..i];
  }

  lemma {:induction false} ImportsCheckedStops(imports: seq<ImportDeclaration>, files: map<string, SourceFile>, env: map<string, Type>,
                                               fuel: nat, i: nat)
    requires i <= |imports| && ImportsChecked(imports[..i], files, env, fuel).result.Fail?
    ensures ImportsChecked(imports, files, env, fuel) == ImportsChecked(imports[..i], files, env, fuel)
    decreases |imports| - i
  {
    if i < |imports| {
      assert imports[..i + 1][..i] == imports[..i];
      ImportsCheckedStops(imports, files, env, fuel, i + 1);
    } else {
      assert imports[..i] == imports;
    }
  }

  /** An import adds exactly the names it lists, each bound as the imported file
      binds it, and changes no other binding: imports are neither wildcard nor
      transitive. */
  lemma ImportAddsOnlyListed(imp: ImportDeclaration, files: map<string, SourceFile>, env: map<string, Type>, fuel: nat)
    requires ImportChecked(imp, files, env, fuel).result.Ok?
    ensures var r := ImportChecked(imp, files, env, fuel).result.value;
      r.Keys == env.Keys + (set id | id in imp.ids)
      && forall id :: id in env && id !in imp.ids ==> r[id] == env[id]
  {
  }

  /** An import of a path no file has fails the `!!`, whatever the fuel. */
  lemma ImportOfMissingFile(imp: ImportDeclaration, files: map<string, SourceFile>, env: map<string, Type>, fuel: nat)
    requires imp.filePath !in files
    ensures ImportChecked(imp, files, env, fuel) == Typing(Fail(NullValue), [])
  {
  }

  // -------------------------------------------------------------------- files

  /** `SourceFile.typeCheck`: the built-in types and functions, the imports, the
      type declarations, the function declarations, the statements, and last
      the function bodies, which therefore see every declaration and every
      top-level `let`. */
  function FileChecked(file: SourceFile, files: map<string, SourceFile>, env: map<string, Type>, fuel: nat)
    : Typing<map<string, Type>>
    decreases fuel, 2
  {
    match WithBuiltIns(env)
    case Fail(f) => Typing(Fail(f), [])
    case Ok(builtIns) =>
      var imported := ImportsChecked(file.imports, files, builtIns, fuel);
      if imported.result.Fail? then imported
      else Then(imported, Declared(file, imported.result.value))
  }

  /** The phases after the imports. */
  function Declared(file: SourceFile, env: map<string, Type>): Typing<map<string, Type>>
  {
    var types := TypesDeclared(file.types, env);
    if types.result.Fail? then types
    else match FunctionsDeclared(file.functions, types.result.value)
      case Fail(f) => Typing(Fail(f), types.errors)
      case Ok(functions) => Then(types, Checks(file, functions))
  }

  /** The statements, then the bodies against the bindings the statements left. */
  function Checks(file: SourceFile, env: map<string, Type>): Typing<map<string, Type>>
  {
    var checked := CheckedAll(file.statements, env);
    if checked.result.Fail? then checked
    else
      var bodies := BodiesChecked(file.functions, checked.result.value);
      Typing(if bodies.result.Fail? then Fail(bodies.result.failure) else checked.result, checked.errors + bodies.errors)
  }

  /** A file that imports itself never finishes: the model runs out of fuel
      whatever fuel it is given, where the source overflows its stack. */
  lemma {:induction false} SelfImportNeverEnds(path: string, ids: seq<string>, files: map<string, SourceFile>, fuel: nat)
    requires path in files && files[path].imports == [ImportDeclaration(path, ids)]
    ensures FileChecked(files[path], files, map[], fuel).result == Fail(OutOfFuel)
    decreases fuel
  {
    var file := files[path];
    var imp := ImportDeclaration(path, ids);
    BuiltInBindings();
    var builtIns := WithBuiltIns(map[]).value;
    assert file.imports[..0] == [];
    if fuel > 0 {
      SelfImportNeverEnds(path, ids, files, fuel - 1);
    }
    assert ImportChecked(imp, files, builtIns, fuel).result == Fail(OutOfFuel);
    assert ImportsChecked(file.imports, files, builtIns, fuel).result == Fail(OutOfFuel);
  }
}
