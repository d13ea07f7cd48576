/** Overload resolution: which variants of an overload set accept a list of
    argument types, the unique pick among them, and the late-bound pick an
    interface-bound object makes by name. */
module Overloads {
  import opened Wrappers
  import opened Syntax
  import opened Types

  // ------------------------------------------------------------ argument match

  /** The assignability verdict of each parameter for its argument, in order.
      Every position is evaluated; the first failing one decides the failure. */
  function ArgumentChecks(params: seq<Parameter>, actual: seq<Type>, scope: FunctionScope): (r: Outcome<seq<bool>>)
    requires |params| == |actual|
    ensures r.Ok? ==> (|r.value| == |params|
      && forall i :: 0 <= i < |params| ==> AssignableFrom(params[i].paramType, actual[i], Some(scope)) == Ok(r.value[i]))
    ensures r.Fail? <==> exists i :: 0 <= i < |params| && AssignableFrom(params[i].paramType, actual[i], Some(scope)).Fail?
  {
    if params == [] then Ok([])
    else
      var head :- AssignableFrom(params[0].paramType, actual[0], Some(scope));
      var tail :- ArgumentChecks(params[1..], actual[1..], scope);
      assert forall i :: 1 <= i < |params| ==> params[i] == params[1..][i - 1] && actual[i] == actual[1..][i - 1];
      Ok([head] + tail)
  }

  /** `matchingArguments`: the counts agree and every parameter accepts its
      argument. A count mismatch answers `false` before any check runs. */
  function Matching(params: seq<Parameter>, actual: seq<Type>, scope: FunctionScope): Outcome<bool>
  {
    if |params| != |actual| then Ok(false)
    else
      var checks :- ArgumentChecks(params, actual, scope);
      Ok(AllTrue(checks))
  }

  predicate AllTrue(checks: seq<bool>)
  {
    forall i :: 0 <= i < |checks| ==> checks[i]
  }

  predicate Matches(f: Function, argTypes: seq<Type>, scope: FunctionScope)
  {
    Matching(f.arguments, argTypes, scope) == Ok(true)
  }

  /** A variant matches exactly when the counts agree and each parameter type is
      assignable from the corresponding argument type. */
  lemma MatchingIff(params: seq<Parameter>, actual: seq<Type>, scope: FunctionScope)
    ensures Matching(params, actual, scope) == Ok(true)
        <==> |params| == |actual|
             && forall i :: 0 <= i < |params| ==> AssignableFrom(params[i].paramType, actual[i], Some(scope)) == Ok(true)
    ensures Matching(params, actual, scope).Fail?
        <==> |params| == |actual|
             && exists i :: 0 <= i < |params| && AssignableFrom(params[i].paramType, actual[i], Some(scope)).Fail?
  {
    if |params| == |actual| {
      var checks := ArgumentChecks(params, actual, scope);
      if checks.Ok? {
        assert forall i :: 0 <= i < |params| ==>
          (AssignableFrom(params[i].paramType, actual[i], Some(scope)) == Ok(true) <==> checks.value[i]);
      }
    }
  }

  // ------------------------------------------------------------------ filter

  /** `findVariant`: the variants that match, in declaration order. The filter
      visits every variant, so any failing check makes the whole search fail. */
  function FindVariant(functions: seq<Function>, argTypes: seq<Type>, scope: FunctionScope): Outcome<seq<Function>>
  {
    if functions == [] then Ok([])
    else
      var matches :- Matching(functions[0].arguments, argTypes, scope);
      var rest :- FindVariant(functions[1..], argTypes, scope);
      Ok(if matches then [functions[0]] + rest else rest)
  }

  /** `a` is `b` with some elements dropped, the rest kept in order. */
  predicate SubsequenceOf(a: seq<Function>, b: seq<Function>)
    decreases |b|
  {
    if a == [] then true
    else if b == [] then false
    else (a[0] == b[0] && SubsequenceOf(a[1..], b[1..])) || SubsequenceOf(a, b[1..])
  }

  /** The search fails exactly when checking some variant fails. */
  lemma {:induction false} FindVariantFails(functions: seq<Function>, argTypes: seq<Type>, scope: FunctionScope)
    ensures FindVariant(functions, argTypes, scope).Fail?
        <==> exists i :: 0 <= i < |functions| && Matching(functions[i].arguments, argTypes, scope).Fail?
  {
    if functions != [] {
      FindVariantFails(functions[1..], argTypes, scope);
      assert forall i :: 1 <= i < |functions| ==> functions[i] == functions[1..][i - 1];
      if exists i :: 0 <= i < |functions| && Matching(functions[i].arguments, argTypes, scope).Fail? {
        var i :| 0 <= i < |functions| && Matching(functions[i].arguments, argTypes, scope).Fail?;
        if i > 0 {
          assert Matching(functions[1..][i - 1].arguments, argTypes, scope).Fail?;
        }
      }
    }
  }

  /** The variants found are the matching ones, in declaration order, and no
      matching variant is missed. */
  lemma {:induction false} FindVariantInOrder(functions: seq<Function>, argTypes: seq<Type>, scope: FunctionScope)
    requires FindVariant(functions, argTypes, scope).Ok?
    ensures var found := FindVariant(functions, argTypes, scope).value;
      SubsequenceOf(found, functions)
      && (forall k :: 0 <= k < |found| ==> Matches(found[k], argTypes, scope))
      && (forall i :: 0 <= i < |functions| && Matches(functions[i], argTypes, scope) ==> functions[i] in found)
  {
    if functions != [] {
      FindVariantInOrder(functions[1..], argTypes, scope);
      var rest := FindVariant(functions[1..], argTypes, scope).value;
      var found := FindVariant(functions, argTypes, scope).value;
      assert forall i :: 1 <= i < |functions| ==> functions[i] == functions[1..][i - 1];
      if Matches(functions[0], argTypes, scope) {
        assert found == [functions[0]] + rest;
        assert found[1..] == rest;
        forall k | 0 <= k < |found|
          ensures Matches(found[k], argTypes, scope)
        {
          if k > 0 { assert found[k] == rest[k - 1]; }
        }
      } else {
        assert found == rest;
        SubsequenceSkip(rest, functions);
      }
    }
  }

  lemma SubsequenceSkip(a: seq<Function>, b: seq<Function>)
    requires b != [] && SubsequenceOf(a, b[1..])
    ensures SubsequenceOf(a, b)
  {
  }

  // ------------------------------------------------------------ unique pick

  /** The variants a pick may return: any variant for `getVariant`, only those
      that are not interface stubs for `getStaticVariant`. */
  predicate Eligible(f: Function, staticOnly: bool)
  {
    !staticOnly || !f.InterfaceFunction?
  }

  function Eligibles(candidates: seq<Function>, staticOnly: bool): seq<Function>
  {
    if candidates == [] then []
    else (if Eligible(candidates[0], staticOnly) then [candidates[0]] else []) + Eligibles(candidates[1..], staticOnly)
  }

  /** `singleOrNull`, with the `Error` thrown on `null`. */
  function SinglePick(name: string, candidates: seq<Function>, staticOnly: bool): Outcome<Function>
  {
    var eligible := Eligibles(candidates, staticOnly);
    if |eligible| == 1 then Ok(eligible[0]) else Fail(NoUniqueVariant(name))
  }

  /** `getVariant`: the single matching variant; none or several is an error. */
  function GetVariant(name: string, functions: seq<Function>, argTypes: seq<Type>, scope: FunctionScope): Outcome<Function>
  {
    var candidates :- FindVariant(functions, argTypes, scope);
    SinglePick(name, candidates, false)
  }

  /** `getStaticVariant`: the single matching variant that is not an interface
      stub. */
  function GetStaticVariant(name: string, functions: seq<Function>, argTypes: seq<Type>, scope: FunctionScope): Outcome<Function>
  {
    var candidates :- FindVariant(functions, argTypes, scope);
    SinglePick(name, candidates, true)
  }

  /** Variant `i` is one a pick would accept. */
  predicate Selected(functions: seq<Function>, i: int, argTypes: seq<Type>, scope: FunctionScope, staticOnly: bool)
    requires 0 <= i < |functions|
  {
    Matches(functions[i], argTypes, scope) && Eligible(functions[i], staticOnly)
  }

  /** The eligible candidates of a successful search. */
  function Picked(functions: seq<Function>, argTypes: seq<Type>, scope: FunctionScope, staticOnly: bool): seq<Function>
    requires FindVariant(functions, argTypes, scope).Ok?
  {
    Eligibles(FindVariant(functions, argTypes, scope).value, staticOnly)
  }

  /** The eligible candidates are built front to back: the first variant if it is
      selected, then those of the rest. */
  lemma PickedStep(functions: seq<Function>, argTypes: seq<Type>, scope: FunctionScope, staticOnly: bool)
    requires functions != [] && FindVariant(functions, argTypes, scope).Ok?
    ensures FindVariant(functions[1..], argTypes, scope).Ok?
    ensures Picked(functions, argTypes, scope, staticOnly)
         == (if Selected(functions, 0, argTypes, scope, staticOnly) then [functions[0]] else [])
            + Picked(functions[1..], argTypes, scope, staticOnly)
  {
    var rest := FindVariant(functions[1..], argTypes, scope).value;
    var found := FindVariant(functions, argTypes, scope).value;
    if Matches(functions[0], argTypes, scope) {
      assert found == [functions[0]] + rest;
      assert found[1..] == rest;
    }
  }

  /** A variant is an eligible candidate exactly when it sits at a selected
      position. */
  lemma {:induction false} PickedMembers(functions: seq<Function>, argTypes: seq<Type>, scope: FunctionScope,
                                         staticOnly: bool, g: Function)
    requires FindVariant(functions, argTypes, scope).Ok?
    ensures g in Picked(functions, argTypes, scope, staticOnly)
        <==> exists i :: 0 <= i < |functions| && functions[i] == g && Selected(functions, i, argTypes, scope, staticOnly)
  {
    if functions != [] {
      var tail := functions[1..];
      PickedStep(functions, argTypes, scope, staticOnly);
      PickedMembers(tail, argTypes, scope, staticOnly, g);
      if g in Picked(tail, argTypes, scope, staticOnly) {
        var j :| 0 <= j < |tail| && tail[j] == g && Selected(tail, j, argTypes, scope, staticOnly);
        assert functions[j + 1] == g && Selected(functions, j + 1, argTypes, scope, staticOnly);
      }
      if exists i :: 0 <= i < |functions| && functions[i] == g && Selected(functions, i, argTypes, scope, staticOnly) {
        var i :| 0 <= i < |functions| && functions[i] == g && Selected(functions, i, argTypes, scope, staticOnly);
        if i > 0 {
          assert tail[i - 1] == g && Selected(tail, i - 1, argTypes, scope, staticOnly);
        }
      }
    }
  }

  /** There is no eligible candidate exactly when no position is selected. */
  lemma {:induction false} PickedEmpty(functions: seq<Function>, argTypes: seq<Type>, scope: FunctionScope, staticOnly: bool)
    requires FindVariant(functions, argTypes, scope).Ok?
    ensures |Picked(functions, argTypes, scope, staticOnly)| == 0
        <==> forall i :: 0 <= i < |functions| ==> !Selected(functions, i, argTypes, scope, staticOnly)
  {
    if functions != [] {
      var tail := functions[1..];
      PickedStep(functions, argTypes, scope, staticOnly);
      PickedEmpty(tail, argTypes, scope, staticOnly);
      assert forall i :: 1 <= i < |functions| ==>
        (Selected(functions, i, argTypes, scope, staticOnly) <==> Selected(tail, i - 1, argTypes, scope, staticOnly));
      if forall i :: 0 <= i < |tail| ==> !Selected(tail, i, argTypes, scope, staticOnly) {
        forall i | 1 <= i < |functions|
          ensures !Selected(functions, i, argTypes, scope, staticOnly)
        {
          assert !Selected(tail, i - 1, argTypes, scope, staticOnly);
        }
      } else {
        var i :| 0 <= i < |tail| && Selected(tail, i, argTypes, scope, staticOnly);
        assert Selected(functions, i + 1, argTypes, scope, staticOnly);
      }
    }
  }

  /** There are two or more eligible candidates exactly when two different
      positions are selected. */
  lemma {:induction false} PickedSeveral(functions: seq<Function>, argTypes: seq<Type>, scope: FunctionScope, staticOnly: bool)
    requires FindVariant(functions, argTypes, scope).Ok?
    ensures |Picked(functions, argTypes, scope, staticOnly)| >= 2
        <==> exists i, j :: 0 <= i < j < |functions|
               && Selected(functions, i, argTypes, scope, staticOnly) && Selected(functions, j, argTypes, scope, staticOnly)
  {
    if functions != [] {
      var tail := functions[1..];
      PickedStep(functions, argTypes, scope, staticOnly);
      PickedSeveral(tail, argTypes, scope, staticOnly);
      PickedEmpty(tail, argTypes, scope, staticOnly);
      assert forall i :: 1 <= i < |functions| ==>
        (Selected(functions, i, argTypes, scope, staticOnly) <==> Selected(tail, i - 1, argTypes, scope, staticOnly));
      if exists i, j :: 0 <= i < j < |functions|
           && Selected(functions, i, argTypes, scope, staticOnly) && Selected(functions, j, argTypes, scope, staticOnly) {
        var i, j :| 0 <= i < j < |functions|
           && Selected(functions, i, argTypes, scope, staticOnly) && Selected(functions, j, argTypes, scope, staticOnly);
        assert Selected(tail, j - 1, argTypes, scope, staticOnly);
        if i > 0 {
          assert Selected(tail, i - 1, argTypes, scope, staticOnly);
        }
      }
      if |Picked(functions, argTypes, scope, staticOnly)| >= 2 && Selected(functions, 0, argTypes, scope, staticOnly) {
        var j :| 0 <= j < |tail| && Selected(tail, j, argTypes, scope, staticOnly);
        assert Selected(functions, j + 1, argTypes, scope, staticOnly);
      }
      if |Picked(functions, argTypes, scope, staticOnly)| >= 2 && !Selected(functions, 0, argTypes, scope, staticOnly) {
        var i, j :| 0 <= i < j < |tail|
           && Selected(tail, i, argTypes, scope, staticOnly) && Selected(tail, j, argTypes, scope, staticOnly);
        assert Selected(functions, i + 1, argTypes, scope, staticOnly) && Selected(functions, j + 1, argTypes, scope, staticOnly);
      }
    }
  }

  /** A pick succeeds with `f` exactly when the search succeeds and `f` is the
      variant at the one and only selected position. */
  lemma PickIsUnique(name: string, functions: seq<Function>, argTypes: seq<Type>, scope: FunctionScope,
                     staticOnly: bool, f: Function)
    requires FindVariant(functions, argTypes, scope).Ok?
    ensures SinglePick(name, FindVariant(functions, argTypes, scope).value, staticOnly) == Ok(f)
        <==> exists i :: 0 <= i < |functions| && functions[i] == f && Selected(functions, i, argTypes, scope, staticOnly)
               && forall j :: 0 <= j < |functions| && Selected(functions, j, argTypes, scope, staticOnly) ==> j == i
  {
    var e := Picked(functions, argTypes, scope, staticOnly);
    PickedEmpty(functions, argTypes, scope, staticOnly);
    PickedSeveral(functions, argTypes, scope, staticOnly);
    if |e| == 1 && e[0] == f {
      PickedMembers(functions, argTypes, scope, staticOnly, f);
      var i :| 0 <= i < |functions| && functions[i] == f && Selected(functions, i, argTypes, scope, staticOnly);
      forall j | 0 <= j < |functions| && Selected(functions, j, argTypes, scope, staticOnly)
        ensures j == i
      {
      }
    }
    if exists i :: 0 <= i < |functions| && functions[i] == f && Selected(functions, i, argTypes, scope, staticOnly)
         && forall j :: 0 <= j < |functions| && Selected(functions, j, argTypes, scope, staticOnly) ==> j == i {
      var i :| 0 <= i < |functions| && functions[i] == f && Selected(functions, i, argTypes, scope, staticOnly)
         && forall j :: 0 <= j < |functions| && Selected(functions, j, argTypes, scope, staticOnly) ==> j == i;
      assert |e| == 1;
      PickedMembers(functions, argTypes, scope, staticOnly, e[0]);
    }
  }

  /** `getVariant` returns `f` exactly when `f` is the one matching variant;
      it fails when no variant or several variants match. */
  lemma GetVariantUnique(name: string, functions: seq<Function>, argTypes: seq<Type>, scope: FunctionScope, f: Function)
    ensures GetVariant(name, functions, argTypes, scope) == Ok(f)
        <==> FindVariant(functions, argTypes, scope).Ok?
             && exists i :: 0 <= i < |functions| && functions[i] == f && Matches(f, argTypes, scope)
                  && forall j :: 0 <= j < |functions| && Matches(functions[j], argTypes, scope) ==> j == i
  {
    if FindVariant(functions, argTypes, scope).Ok? {
      PickIsUnique(name, functions, argTypes, scope, false, f);
      assert GetVariant(name, functions, argTypes, scope) == SinglePick(name, FindVariant(functions, argTypes, scope).value, false);
      assert forall i :: 0 <= i < |functions| ==>
        (Selected(functions, i, argTypes, scope, false) <==> Matches(functions[i], argTypes, scope));
    }
  }

  /** `getStaticVariant` returns `f` exactly when `f` is not an interface stub and
      is the one matching variant among those that are not. */
  lemma GetStaticVariantUnique(name: string, functions: seq<Function>, argTypes: seq<Type>, scope: FunctionScope, f: Function)
    ensures GetStaticVariant(name, functions, argTypes, scope) == Ok(f)
        <==> FindVariant(functions, argTypes, scope).Ok?
             && exists i :: 0 <= i < |functions| && functions[i] == f && Matches(f, argTypes, scope) && !f.InterfaceFunction?
                  && forall j :: (0 <= j < |functions| && Matches(functions[j], argTypes, scope)
                                  && !functions[j].InterfaceFunction?) ==> j == i
  {
    if FindVariant(functions, argTypes, scope).Ok? {
      PickIsUnique(name, functions, argTypes, scope, true, f);
      assert GetStaticVariant(name, functions, argTypes, scope) == SinglePick(name, FindVariant(functions, argTypes, scope).value, true);
      assert forall i :: 0 <= i < |functions| ==>
        (Selected(functions, i, argTypes, scope, true) <==> Matches(functions[i], argTypes, scope) && !functions[i].InterfaceFunction?);
    }
  }

  /** With no matching variant, or with two, `getVariant` fails. */
  lemma GetVariantNoneOrSeveral(name: string, functions: seq<Function>, argTypes: seq<Type>, scope: FunctionScope)
    requires (forall i :: 0 <= i < |functions| ==> !Matches(functions[i], argTypes, scope))
          || (exists i, j :: 0 <= i < j < |functions| && Matches(functions[i], argTypes, scope) && Matches(functions[j], argTypes, scope))
    ensures GetVariant(name, functions, argTypes, scope).Fail?
  {
    if FindVariant(functions, argTypes, scope).Ok? {
      PickedEmpty(functions, argTypes, scope, false);
      PickedSeveral(functions, argTypes, scope, false);
      assert forall i :: 0 <= i < |functions| ==>
        (Selected(functions, i, argTypes, scope, false) <==> Matches(functions[i], argTypes, scope));
    }
  }

  // --------------------------------------------------- extending an overload set

  /** The overload set bound to `name` after one more variant is declared, given
      the type currently bound there; a binding that is not an overload set fails
      the cast. */
  function AddVariant(name: string, existing: Type, impl: Function): (r: Outcome<Type>)
    ensures r.Ok? <==> existing.OverloadedFunction?
    ensures r.Fail? ==> r.failure == CastFailure
    ensures r.Ok? ==> (r.value.OverloadedFunction? && r.value.name == name
      && r.value.functions == existing.functions + [impl])
  {
    match existing
    case OverloadedFunction(_, functions) => Ok(OverloadedFunction(name, functions + [impl]))
    case _ => Fail(CastFailure)
  }

  /** Appending a variant keeps every earlier match: the old candidates are a
      prefix of the new ones. */
  lemma {:induction false} FindVariantAppend(functions: seq<Function>, impl: Function, argTypes: seq<Type>, scope: FunctionScope)
    requires FindVariant(functions + [impl], argTypes, scope).Ok?
    ensures FindVariant(functions, argTypes, scope).Ok?
    ensures FindVariant(functions + [impl], argTypes, scope).value
         == FindVariant(functions, argTypes, scope).value + (if Matches(impl, argTypes, scope) then [impl] else [])
  {
    if functions == [] {
      assert [impl][1..] == [];
    } else {
      assert (functions + [impl])[1..] == functions[1..] + [impl];
      FindVariantAppend(functions[1..], impl, argTypes, scope);
    }
  }

  /** When no earlier variant matches the argument types and the new one does,
      the extended set resolves to the new variant: declaring
      `combine(String, String)` after `combine(Integer, Integer)` lets both calls
      resolve. */
  lemma AddVariantResolvesNew(name: string, existing: Type, impl: Function, argTypes: seq<Type>, scope: FunctionScope)
    requires existing.OverloadedFunction?
    requires FindVariant(existing.functions, argTypes, scope) == Ok([])
    requires Matches(impl, argTypes, scope)
    ensures AddVariant(name, existing, impl).Ok?
    ensures GetVariant(name, AddVariant(name, existing, impl).value.functions, argTypes, scope) == Ok(impl)
  {
    var fs := existing.functions + [impl];
    assert AddVariant(name, existing, impl).value.functions == fs;
    FindVariantAppendOk(existing.functions, impl, argTypes, scope);
    FindVariantAppend(existing.functions, impl, argTypes, scope);
    var found := FindVariant(fs, argTypes, scope);
    assert found.Ok? && found.value == [] + [impl];
    assert found.value == [impl];
    assert Eligibles([impl], false) == [impl];
    assert GetVariant(name, fs, argTypes, scope) == SinglePick(name, [impl], false);
  }

  lemma {:induction false} FindVariantAppendOk(functions: seq<Function>, impl: Function, argTypes: seq<Type>, scope: FunctionScope)
    requires FindVariant(functions, argTypes, scope).Ok?
    requires Matching(impl.arguments, argTypes, scope).Ok?
    ensures FindVariant(functions + [impl], argTypes, scope).Ok?
  {
    if functions == [] {
      assert [impl][1..] == [];
    } else {
      assert (functions + [impl])[1..] == functions[1..] + [impl];
      FindVariantAppendOk(functions[1..], impl, argTypes, scope);
    }
  }

  // ------------------------------------------------------------ late binding

  /** `IIO.getVariant`: the one overload set held under `name`, resolved against
      the stored concrete type followed by the remaining argument types. */
  function IIOGetVariant(functions: set<Overloads>, concreteType: Type, name: string,
                         argTypes: seq<Type>, scope: FunctionScope): Outcome<Function>
  {
    var named := set o | o in functions && o.name == name;
    if |named| == 0 then Fail(NoSuchElement)
    else if |named| > 1 then Fail(SeveralElements)
    else
      SingletonUnique(named);
      var o :| o in named;
      GetVariant(o.name, o.functions, [concreteType] + argTypes, scope)
  }

  lemma SingletonUnique(s: set<Overloads>)
    requires |s| == 1
    ensures forall a, b :: a in s && b in s ==> a == b
  {
    var a :| a in s;
    assert |s - {a}| == 0;
    assert s - {a} == {};
  }

  /** A late-bound pick fails unless exactly one held overload set carries the
      name; when it succeeds, the result is that set's unique variant for the
      concrete type followed by the remaining argument types, in order. */
  lemma IIOGetVariantSpec(functions: set<Overloads>, concreteType: Type, name: string,
                          argTypes: seq<Type>, scope: FunctionScope)
    ensures IIOGetVariant(functions, concreteType, name, argTypes, scope).Ok? ==>
      exists o :: o in functions && o.name == name
        && (forall o' :: o' in functions && o'.name == name ==> o' == o)
        && IIOGetVariant(functions, concreteType, name, argTypes, scope)
           == GetVariant(name, o.functions, [concreteType] + argTypes, scope)
    ensures (forall o :: o in functions ==> o.name != name)
        ==> IIOGetVariant(functions, concreteType, name, argTypes, scope) == Fail(NoSuchElement)
  {
    var named := set o | o in functions && o.name == name;
    if |named| == 1 {
      SingletonUnique(named);
      var o :| o in named;
      assert forall o' :: o' in functions && o'.name == name ==> o' in named;
    }
    if forall o :: o in functions ==> o.name != name {
      assert named == {};
    }
  }

  /** The variant a late-bound pick returns takes the concrete type as its first
      parameter's argument and the remaining argument types, in order, after it. */
  lemma IIOVariantTakesConcreteFirst(functions: set<Overloads>, concreteType: Type, name: string,
                                     argTypes: seq<Type>, scope: FunctionScope, f: Function)
    requires IIOGetVariant(functions, concreteType, name, argTypes, scope) == Ok(f)
    ensures |f.arguments| == |argTypes| + 1
    ensures AssignableFrom(f.arguments[0].paramType, concreteType, Some(scope)) == Ok(true)
    ensures forall i :: 0 <= i < |argTypes| ==>
              AssignableFrom(f.arguments[i + 1].paramType, argTypes[i], Some(scope)) == Ok(true)
    ensures exists o :: o in functions && o.name == name && f in o.functions
  {
    IIOGetVariantSpec(functions, concreteType, name, argTypes, scope);
    var o :| o in functions && o.name == name
        && (forall o' :: o' in functions && o'.name == name ==> o' == o)
        && IIOGetVariant(functions, concreteType, name, argTypes, scope)
           == GetVariant(name, o.functions, [concreteType] + argTypes, scope);
    var types := [concreteType] + argTypes;
    GetVariantUnique(name, o.functions, types, scope, f);
    MatchingIff(f.arguments, types, scope);
    assert forall i :: 0 <= i < |argTypes| ==> types[i + 1] == argTypes[i];
  }
}
