/** Resolving a written type annotation against the typing scope, and the pure
    parts of the type declarations: record fields, enum members and interface
    signatures, each computed from the bindings visible when they are declared. */
module Annotations {
  import opened Wrappers
  import opened Syntax
  import opened BuiltIns
  import opened Diagnostics

  /** Some member of the enum is the generic placeholder. */
  predicate HasGeneric(members: set<Type>)
  {
    exists m :: m in members && m.GenericType?
  }

  /** Every placeholder member replaced by `actual`, the other members kept. */
  function Substitute(members: set<Type>, actual: Type): set<Type>
  {
    set m | m in members :: if m.GenericType? then actual else m
  }

  /** `TypeAnnotation.toType`: the type bound to the name. For an enum written
      with a generic argument, each placeholder member is replaced by the type
      bound to the argument; the argument is looked up only when there is a
      placeholder to replace. An unbound name is an `IllegalStateException`. */
  function ToType(env: map<string, Type>, ann: TypeAnnotation): (r: Outcome<Type>)
    ensures r.Fail? ==> r.failure.UnknownName?
  {
    if ann.name !in env then Fail(UnknownName(ann.name))
    else
      var declared := env[ann.name];
      if declared.EnumType? && ann.genericParameter.Some? then
        var parameter := ann.genericParameter.value;
        if HasGeneric(declared.types) && parameter !in env then Fail(UnknownName(parameter))
        else if HasGeneric(declared.types) then Ok(EnumType(declared.name, Substitute(declared.types, env[parameter])))
        else Ok(EnumType(declared.name, declared.types))
      else Ok(declared)
  }

  /** `toType` fails exactly on an unbound name, or on an unbound argument when the
      enum has a placeholder. */
  lemma ToTypeFails(env: map<string, Type>, ann: TypeAnnotation)
    ensures ToType(env, ann).Fail? <==>
      ann.name !in env
      || (env[ann.name].EnumType? && ann.genericParameter.Some? && HasGeneric(env[ann.name].types)
          && ann.genericParameter.value !in env)
  {
  }

  /** Without a generic argument, or for a type that is not an enum, the bound
      type comes back unchanged. */
  lemma ToTypePlain(env: map<string, Type>, ann: TypeAnnotation)
    requires ann.name in env
    requires ann.genericParameter.None? || !env[ann.name].EnumType?
    ensures ToType(env, ann) == Ok(env[ann.name])
  {
  }

  /** With a generic argument, an enum keeps its name; a member of the result is
      a non-placeholder member of the enum, or the argument's type standing for a
      placeholder. */
  lemma ToTypeSubstitutes(env: map<string, Type>, ann: TypeAnnotation, m: Type)
    requires ann.name in env && env[ann.name].EnumType? && ann.genericParameter.Some?
    requires ToType(env, ann).Ok?
    ensures ToType(env, ann).value.EnumType? && ToType(env, ann).value.name == env[ann.name].name
    ensures m in ToType(env, ann).value.types <==>
      (m in env[ann.name].types && !m.GenericType?)
      || (HasGeneric(env[ann.name].types) && m == env[ann.genericParameter.value])
  {
    var members := env[ann.name].types;
    if HasGeneric(members) {
      var g :| g in members && g.GenericType?;
      var actual := env[ann.genericParameter.value];
      assert (if g.GenericType? then actual else g) == actual;
    }
  }

  /** `enum Opt<T> { T, 'None }` written as `Opt<Integer>` is the enum of Integer
      and the symbol `'None`. */
  lemma OptOfInteger()
    ensures var opt := EnumType("Opt", {GenericType("T"), SymbolType("'None")});
      ToType(map["Opt" := opt, "Integer" := IntegerType], TypeAnnotation("Opt", Some("Integer")))
      == Ok(EnumType("Opt", {IntegerType, SymbolType("'None")}))
  {
    var opt := EnumType("Opt", {GenericType("T"), SymbolType("'None")});
    var env := map["Opt" := opt, "Integer" := IntegerType];
    assert HasGeneric(opt.types) by {
      assert GenericType("T") in opt.types;
    }
    var s := Substitute(opt.types, IntegerType);
    assert IntegerType in s by {
      assert GenericType("T") in opt.types;
    }
    assert SymbolType("'None") in s by {
      assert SymbolType("'None") in opt.types;
    }
    assert s == {IntegerType, SymbolType("'None")};
  }

  // ---------------------------------------------------------------- records

  /** The field types of a record declaration and the diagnostics they raise: an
      annotation that does not resolve becomes `Nothing` and adds one
      `UndeclaredType` naming the annotation, at the declaration's range. */
  function FieldTypes(env: map<string, Type>, fields: seq<Annotated>, loc: Loc): (r: (seq<Field>, seq<TypeError>))
    ensures |r.0| == |fields|
    ensures forall k :: 0 <= k < |fields| ==> r.0[k].name == fields[k].name
    ensures forall k :: 0 <= k < |fields| ==>
              r.0[k].fieldType == (match ToType(env, fields[k].annotation)
                                  case Ok(t) => t
                                  case Fail(_) => NothingType)
    ensures r.1 == UndeclaredTypes(env, fields, loc)
  {
    if fields == [] then ([], [])
    else
      var head := fields[0];
      var rest := FieldTypes(env, fields[1..], loc);
      match ToType(env, head.annotation)
      case Ok(t) => ([Field(head.name, t)] + rest.0, rest.1)
      case Fail(_) => ([Field(head.name, NothingType)] + rest.0, [UndeclaredType(head.annotation.name, loc)] + rest.1)
  }

  /** One `UndeclaredType` per unresolvable field annotation, in field order. */
  function UndeclaredTypes(env: map<string, Type>, fields: seq<Annotated>, loc: Loc): (r: seq<TypeError>)
    ensures |r| <= |fields|
    ensures forall e :: e in r ==> e.UndeclaredType? && e.loc == loc
  {
    if fields == [] then []
    else
      (if ToType(env, fields[0].annotation).Fail? then [UndeclaredType(fields[0].annotation.name, loc)] else [])
      + UndeclaredTypes(env, fields[1..], loc)
  }

  /** The field type an annotation gets: the resolved type, or `Nothing`. */
  function FieldType(env: map<string, Type>, ann: TypeAnnotation): Type
  {
    match ToType(env, ann)
    case Ok(t) => t
    case Fail(_) => NothingType
  }

  /** The diagnostics of one field annotation: one `UndeclaredType` when it does
      not resolve. */
  function FieldErrors(env: map<string, Type>, ann: TypeAnnotation, loc: Loc): seq<TypeError>
  {
    if ToType(env, ann).Fail? then [UndeclaredType(ann.name, loc)] else []
  }

  /** One more field annotation adds its diagnostics at the end. */
  lemma {:induction false} UndeclaredTypesAppend(env: map<string, Type>, fields: seq<Annotated>, f: Annotated, loc: Loc)
    ensures UndeclaredTypes(env, fields + [f], loc) == UndeclaredTypes(env, fields, loc) + FieldErrors(env, f.annotation, loc)
    decreases |fields|
  {
    if fields == [] {
      assert ([] + [f])[1..] == [];
    } else {
      assert (fields + [f])[0] == fields[0];
      assert (fields + [f])[1..] == fields[1..] + [f];
      UndeclaredTypesAppend(env, fields[1..], f, loc);
    }
  }

  /** The same, for one more field of a prefix. */
  lemma UndeclaredTypesPrefix(env: map<string, Type>, fields: seq<Annotated>, i: nat, loc: Loc)
    requires i < |fields|
    ensures UndeclaredTypes(env, fields[..i + 1], loc)
         == UndeclaredTypes(env, fields[..i], loc) + FieldErrors(env, fields[i].annotation, loc)
  {
    assert fields[..i + 1] == fields[..i] + [fields[i]];
    UndeclaredTypesAppend(env, fields[..i], fields[i], loc);
  }

  /** Mapping one more field extends both the fields and the diagnostics at the
      end, as a loop over the fields produces them. */
  lemma FieldTypesAppend(env: map<string, Type>, fields: seq<Annotated>, f: Annotated, loc: Loc)
    ensures FieldTypes(env, fields + [f], loc)
         == (FieldTypes(env, fields, loc).0 + [Field(f.name, FieldType(env, f.annotation))],
             FieldTypes(env, fields, loc).1 + FieldErrors(env, f.annotation, loc))
  {
    UndeclaredTypesAppend(env, fields, f, loc);
    var all := fields + [f];
    var longer := FieldTypes(env, all, loc).0;
    var shorter := FieldTypes(env, fields, loc).0;
    var expected := shorter + [Field(f.name, FieldType(env, f.annotation))];
    assert |longer| == |expected|;
    forall k | 0 <= k < |longer|
      ensures longer[k] == expected[k]
    {
      assert longer[k] == Field(all[k].name, FieldType(env, all[k].annotation));
      if k < |fields| {
        assert all[k] == fields[k];
        assert shorter[k] == Field(fields[k].name, FieldType(env, fields[k].annotation));
      } else {
        assert all[k] == f;
      }
    }
    assert longer == expected;
  }

  /** A record whose field annotations all resolve raises nothing. */
  lemma {:induction false} ResolvedFieldsRaiseNothing(env: map<string, Type>, fields: seq<Annotated>, loc: Loc)
    requires forall k :: 0 <= k < |fields| ==> ToType(env, fields[k].annotation).Ok?
    ensures UndeclaredTypes(env, fields, loc) == []
  {
    if fields != [] {
      assert forall k :: 0 <= k < |fields[1..]| ==> fields[1..][k] == fields[k + 1];
      ResolvedFieldsRaiseNothing(env, fields[1..], loc);
    }
  }

  /** Example: a field `oops: DoesNotExist` becomes `Nothing` with one diagnostic. */
  lemma UndeclaredFieldType(loc: Loc)
    ensures FieldTypes(map[], [Annotated("oops", TypeAnnotation("DoesNotExist", None))], loc)
         == ([Field("oops", NothingType)], [UndeclaredType("DoesNotExist", loc)])
  {
    var fields := [Annotated("oops", TypeAnnotation("DoesNotExist", None))];
    assert fields[1..] == [];
    assert ToType(map[], fields[0].annotation) == Fail(UnknownName("DoesNotExist"));
    assert FieldTypes(map[], fields[1..], loc) == ([], []);
    var r := FieldTypes(map[], fields, loc);
    assert r.0 == [Field("oops", NothingType)];
    assert r.1 == [UndeclaredType("DoesNotExist", loc)];
  }

  // ------------------------------------------------------------------ enums

  /** The types of an enum's subtypes: one named like the generic parameter is the
      placeholder, any other is resolved, and an unresolvable one fails. */
  function SubtypeTypes(env: map<string, Type>, genericParameter: Option<string>, subtypes: seq<TypeAnnotation>): (r: Outcome<seq<Type>>)
    ensures r.Ok? ==> |r.value| == |subtypes|
    ensures r.Ok? ==> forall k :: 0 <= k < |subtypes| ==>
              if genericParameter == Some(subtypes[k].name) then r.value[k] == GenericType(subtypes[k].name)
              else ToType(env, subtypes[k]) == Ok(r.value[k])
    ensures r.Fail? <==> exists k :: 0 <= k < |subtypes| && genericParameter != Some(subtypes[k].name)
                                     && ToType(env, subtypes[k]).Fail?
  {
    if subtypes == [] then Ok([])
    else
      var head :- if genericParameter == Some(subtypes[0].name) then Ok(GenericType(subtypes[0].name))
                  else ToType(env, subtypes[0]);
      var rest :- SubtypeTypes(env, genericParameter, subtypes[1..]);
      assert forall k :: 1 <= k < |subtypes| ==> subtypes[k] == subtypes[1..][k - 1];
      Ok([head] + rest)
  }

  /** The member set of an enum: its subtype types and its symbols' types. */
  function EnumMembers(env: map<string, Type>, genericParameter: Option<string>, subtypes: seq<TypeAnnotation>, symbols: seq<string>): (r: Outcome<set<Type>>)
    ensures r.Ok? <==> SubtypeTypes(env, genericParameter, subtypes).Ok?
    ensures r.Ok? ==> forall m :: m in r.value <==>
              m in SubtypeTypes(env, genericParameter, subtypes).value
              || (m.SymbolType? && m.name in symbols)
  {
    var types :- SubtypeTypes(env, genericParameter, subtypes);
    Ok((set t | t in types) + (set s | s in symbols :: SymbolType(s)))
  }

  // ------------------------------------------------------------- interfaces

  /** The parameters of a signature, each annotation resolved in order. */
  function Parameters(env: map<string, Type>, arguments: seq<Annotated>): (r: Outcome<seq<Parameter>>)
    ensures r.Ok? ==> |r.value| == |arguments|
    ensures r.Ok? ==> forall k :: 0 <= k < |arguments| ==>
              r.value[k].name == arguments[k].name && ToType(env, arguments[k].annotation) == Ok(r.value[k].paramType)
    ensures r.Fail? <==> exists k :: 0 <= k < |arguments| && ToType(env, arguments[k].annotation).Fail?
  {
    if arguments == [] then Ok([])
    else
      var t :- ToType(env, arguments[0].annotation);
      var rest :- Parameters(env, arguments[1..]);
      assert forall k :: 1 <= k < |arguments| ==> arguments[k] == arguments[1..][k - 1];
      Ok([Parameter(arguments[0].name, t)] + rest)
  }

  /** The overload set one interface signature requires: a single bodiless
      variant with the resolved parameter and return types. */
  function SignatureOverloads(env: map<string, Type>, sig: FunctionSignature): (r: Outcome<Overloads>)
    ensures r.Ok? ==> r.value.name == sig.name && |r.value.functions| == 1
                      && r.value.functions[0].InterfaceFunction? && r.value.functions[0].name == sig.name
                      && Parameters(env, sig.arguments) == Ok(r.value.functions[0].arguments)
                      && ToType(env, sig.returnType) == Ok(r.value.functions[0].returnType)
  {
    var parameters :- Parameters(env, sig.arguments);
    var returnType :- ToType(env, sig.returnType);
    Ok(Overloads(sig.name, [InterfaceFunction(sig.name, parameters, returnType)]))
  }

  /** The required overload sets of an interface, in declaration order with equal
      sets kept once (`toSet` on a list keeps first occurrences). */
  function InterfaceOverloads(env: map<string, Type>, signatures: seq<FunctionSignature>): (r: Outcome<seq<Overloads>>)
    ensures r.Ok? ==> Distinct(r.value)
    ensures r.Ok? ==> forall o :: o in r.value <==>
              exists k :: 0 <= k < |signatures| && SignatureOverloads(env, signatures[k]) == Ok(o)
    ensures r.Fail? <==> exists k :: 0 <= k < |signatures| && SignatureOverloads(env, signatures[k]).Fail?
    decreases |signatures|
  {
    if signatures == [] then Ok([])
    else
      var last := |signatures| - 1;
      var init :- InterfaceOverloads(env, signatures[..last]);
      var o :- SignatureOverloads(env, signatures[last]);
      assert forall k :: 0 <= k < last ==> signatures[..last][k] == signatures[k];
      Ok(if o in init then init else init + [o])
  }

  predicate Distinct<T(==)>(s: seq<T>)
  {
    forall i, j :: 0 <= i < j < |s| ==> s[i] != s[j]
  }
}
