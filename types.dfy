/** Assignability between types, interface completion and the union of branch
    types. */
module Types {
  import opened Wrappers
  import opened Syntax
  import opened BuiltIns

  /** What a scope binds a name to, as far as interface satisfaction cares: an
      overload set, or something else (a cast to an overload set would fail). */
  datatype Binding = FunctionBinding(functions: seq<Function>) | OtherBinding

  /** The names visible in a scope with what they are bound to. */
  type FunctionScope = map<string, Binding>

  /** The check every type starts with: `Any` accepts everything and every type
      accepts itself. */
  predicate BaseAssignable(target: Type, other: Type)
  {
    target == AnyType || target == other
  }

  /** Some variant in scope under the name of `required` takes `candidate` as its
      first parameter; fails when the name is unbound or not a function. */
  function PresentIn(required: Overloads, scope: FunctionScope, candidate: Type): Outcome<bool>
  {
    if required.name !in scope then Fail(UnknownName(required.name))
    else match scope[required.name]
      case OtherBinding => Fail(CastFailure)
      case FunctionBinding(fs) =>
        Ok(exists i :: 0 <= i < |fs| && FirstParameterIs(fs[i], candidate))
  }

  predicate FirstParameterIs(f: Function, candidate: Type)
  {
    |f.arguments| > 0 && f.arguments[0].paramType == candidate
  }

  /** `functions.all { presentIn(it) }`: stops at the first `false` or failure. */
  function AllPresent(required: seq<Overloads>, scope: FunctionScope, candidate: Type): Outcome<bool>
  {
    if required == [] then Ok(true)
    else match PresentIn(required[0], scope, candidate)
      case Fail(e) => Fail(e)
      case Ok(false) => Ok(false)
      case Ok(true) => AllPresent(required[1..], scope, candidate)
  }

  /** `target.assignableFrom(other, scope)`. Only an interface can fail, and only
      when a scope is given. */
  function AssignableFrom(target: Type, other: Type, scope: Option<FunctionScope>): (r: Outcome<bool>)
    ensures r.Fail? ==> target.InterfaceType? && scope.Some? && !BaseAssignable(target, other)
    ensures BaseAssignable(target, other) ==> r == Ok(true)
  {
    match target
    case EnumType(_, types) =>
      Ok(BaseAssignable(target, other) || if other.EnumType? then other.types <= types else other in types)
    case InterfaceType(_, required) =>
      if BaseAssignable(target, other) then Ok(true)
      else if scope.None? then Ok(false)
      else AllPresent(required, scope.value, other)
    case _ => Ok(BaseAssignable(target, other))
  }

  // ---------------------------------------------------------- assignability

  lemma AssignableReflexive(t: Type, scope: Option<FunctionScope>)
    ensures AssignableFrom(t, t, scope) == Ok(true)
  {
  }

  lemma AnyAcceptsEverything(other: Type, scope: Option<FunctionScope>)
    ensures AssignableFrom(AnyType, other, scope) == Ok(true)
  {
  }

  /** Types other than enums and interfaces are assignable only from themselves
      (and `Any` from everything). */
  lemma PlainTypesAreNominal(target: Type, other: Type, scope: Option<FunctionScope>)
    requires !target.EnumType? && !target.InterfaceType?
    ensures AssignableFrom(target, other, scope) == Ok(target == AnyType || target == other)
  {
  }

  /** An enum accepts a candidate that is not an enum exactly when it is one of
      its members. */
  lemma EnumAcceptsMember(name: string, members: set<Type>, other: Type, scope: Option<FunctionScope>)
    requires !other.EnumType?
    ensures AssignableFrom(EnumType(name, members), other, scope) == Ok(other in members)
  {
  }

  /** An enum accepts another enum exactly when the other's members are a subset
      of its own. */
  lemma EnumAcceptsSubset(name: string, members: set<Type>, other: Type, scope: Option<FunctionScope>)
    requires other.EnumType?
    ensures AssignableFrom(EnumType(name, members), other, scope) == Ok(other.types <= members)
  {
  }

  /** Without a scope an interface is assignable only from itself. */
  lemma InterfaceWithoutScope(name: string, required: seq<Overloads>, other: Type)
    ensures AssignableFrom(InterfaceType(name, required), other, None) == Ok(other == InterfaceType(name, required))
  {
  }

  /** `AllPresent` succeeds with `true` exactly when every required overload set
      is present. */
  lemma {:induction false} AllPresentTrue(required: seq<Overloads>, scope: FunctionScope, candidate: Type)
    ensures AllPresent(required, scope, candidate) == Ok(true)
        <==> forall i :: 0 <= i < |required| ==> PresentIn(required[i], scope, candidate) == Ok(true)
  {
    if required != [] {
      AllPresentTrue(required[1..], scope, candidate);
      assert forall i :: 1 <= i < |required| ==> required[i] == required[1..][i - 1];
    }
  }

  /** `AllPresent` answers `false` exactly when some required set is absent and
      every set before it was present: a failure further on is never reached. */
  lemma {:induction false} AllPresentFalse(required: seq<Overloads>, scope: FunctionScope, candidate: Type)
    ensures AllPresent(required, scope, candidate) == Ok(false)
        <==> exists i :: 0 <= i < |required| && PresentIn(required[i], scope, candidate) == Ok(false)
                      && forall j :: 0 <= j < i ==> PresentIn(required[j], scope, candidate) == Ok(true)
  {
    if required != [] {
      AllPresentFalse(required[1..], scope, candidate);
      var head := PresentIn(required[0], scope, candidate);
      if head == Ok(true) {
        if AllPresent(required, scope, candidate) == Ok(false) {
          var i :| 0 <= i < |required[1..]| && PresentIn(required[1..][i], scope, candidate) == Ok(false)
                   && forall j :: 0 <= j < i ==> PresentIn(required[1..][j], scope, candidate) == Ok(true);
          assert PresentIn(required[i + 1], scope, candidate) == Ok(false);
          forall j | 0 <= j < i + 1
            ensures PresentIn(required[j], scope, candidate) == Ok(true)
          {
            if j > 0 { assert required[j] == required[1..][j - 1]; }
          }
        }
        if exists i :: 0 <= i < |required| && PresentIn(required[i], scope, candidate) == Ok(false)
                      && forall j :: 0 <= j < i ==> PresentIn(required[j], scope, candidate) == Ok(true) {
          var i :| 0 <= i < |required| && PresentIn(required[i], scope, candidate) == Ok(false)
                   && forall j :: 0 <= j < i ==> PresentIn(required[j], scope, candidate) == Ok(true);
          assert i > 0;
          assert PresentIn(required[1..][i - 1], scope, candidate) == Ok(false);
          forall j | 0 <= j < i - 1
            ensures PresentIn(required[1..][j], scope, candidate) == Ok(true)
          {
            assert required[1..][j] == required[j + 1];
          }
        }
      } else if head.Fail? {
        assert AllPresent(required, scope, candidate).Fail?;
      }
    }
  }

  /** With a scope, an interface accepts a different type exactly when, for every
      required name, the scope binds that name to an overload set one of whose
      variants takes the candidate as its first parameter. */
  lemma InterfaceAcceptsIff(name: string, required: seq<Overloads>, other: Type, scope: FunctionScope)
    requires other != InterfaceType(name, required)
    ensures AssignableFrom(InterfaceType(name, required), other, Some(scope)) == Ok(true)
        <==> forall i :: 0 <= i < |required| ==>
               required[i].name in scope && scope[required[i].name].FunctionBinding?
               && exists f :: f in scope[required[i].name].functions && FirstParameterIs(f, other)
  {
    AllPresentTrue(required, scope, other);
    forall i | 0 <= i < |required|
      ensures PresentIn(required[i], scope, other) == Ok(true)
          <==> (required[i].name in scope && scope[required[i].name].FunctionBinding?
                && exists f :: f in scope[required[i].name].functions && FirstParameterIs(f, other))
    {
      if required[i].name in scope && scope[required[i].name].FunctionBinding? {
        var fs := scope[required[i].name].functions;
        if exists f :: f in fs && FirstParameterIs(f, other) {
          var f :| f in fs && FirstParameterIs(f, other);
          var k :| 0 <= k < |fs| && fs[k] == f;
        }
      }
    }
  }

  // ---------------------------------------------------------- interface stubs

  /** The stub of one interface signature for a given receiver type. */
  function SelfStub(f: Function, self: Type): Function
  {
    InterfaceFunction(f.name, [Parameter("self", self)] + f.arguments, f.returnType)
  }

  /** `completeFunctions(type)`: every required overload set, each variant turned
      into a stub whose first parameter is `self` of the given type. */
  function CompleteFunctions(required: seq<Overloads>, self: Type): (r: seq<Overloads>)
    ensures |r| == |required|
    ensures forall k :: 0 <= k < |r| ==>
              r[k].name == required[k].name && |r[k].functions| == |required[k].functions|
    ensures forall k, j :: 0 <= k < |r| && 0 <= j < |r[k].functions| ==>
              var stub, f := r[k].functions[j], required[k].functions[j];
              stub.InterfaceFunction? && stub.name == f.name && stub.returnType == f.returnType
              && |stub.arguments| == |f.arguments| + 1
              && stub.arguments[0] == Parameter("self", self) && stub.arguments[1..] == f.arguments
  {
    seq(|required|, k requires 0 <= k < |required| =>
      Overloads(required[k].name,
        seq(|required[k].functions|, j requires 0 <= j < |required[k].functions| =>
          SelfStub(required[k].functions[j], self))))
  }

  // ------------------------------------------------------------------ union

  /** Enum members stand for themselves; every other type stands for itself. */
  function Flatten(types: set<Type>): set<Type>
  {
    (set t | t in types && !t.EnumType?) + (set t, m | t in types && t.EnumType? && m in t.types :: m)
  }

  /** `union(types)`: the flattened set; a single member stands for itself,
      anything else becomes the enum `Inline`. */
  function Union(types: set<Type>): Type
  {
    var flat := Flatten(types);
    if exists t :: t in flat && flat == {t} then
      var t :| t in flat && flat == {t};
      t
    else
      EnumType("Inline", flat)
  }

  /** A flattened set of size one collapses to its member; any other size gives
      the enum `Inline` of the flattened set. */
  lemma UnionShape(types: set<Type>)
    ensures |Flatten(types)| == 1 ==> Flatten(types) == {Union(types)}
    ensures |Flatten(types)| != 1 ==> Union(types) == EnumType("Inline", Flatten(types))
  {
    var flat := Flatten(types);
    if |flat| == 1 {
      var t :| t in flat;
      assert |flat - {t}| == 0;
      assert flat - {t} == {};
      assert flat == {t};
    }
  }

  /** The members of a union: the non-enum inputs and the members of the enum
      inputs. */
  lemma UnionMembers(types: set<Type>, m: Type)
    ensures m in Flatten(types)
        <==> (m in types && !m.EnumType?) || exists t :: t in types && t.EnumType? && m in t.types
  {
  }

  /** A single type that is not an enum is its own union. */
  lemma UnionOfOne(t: Type)
    requires !t.EnumType?
    ensures Union({t}) == t
  {
    assert Flatten({t}) == {t};
  }

  /** Two different non-enum branch types make the enum `Inline` of both. */
  lemma UnionOfTwo(a: Type, b: Type)
    requires !a.EnumType? && !b.EnumType? && a != b
    ensures Union({a, b}) == EnumType("Inline", {a, b})
  {
    assert Flatten({a, b}) == {a, b};
  }

  /** Taking the union again changes nothing, provided no flattened member is
      itself an enum. */
  lemma UnionIdempotent(types: set<Type>)
    requires forall m :: m in Flatten(types) ==> !m.EnumType?
    ensures Union({Union(types)}) == Union(types)
  {
    var u := Union(types);
    UnionShape(types);
    if |Flatten(types)| == 1 {
      assert !u.EnumType?;
      UnionOfOne(u);
    } else {
      assert Flatten({u}) == Flatten(types);
    }
  }
}
