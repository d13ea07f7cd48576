/** The evaluator's state as one value, and the runtime binding-stack operations
    as functions on it.

    A `Machine` is what evaluation can change: the runtime layers and stack,
    the layer each declared function captured (`parentScope`), what `printLine`
    has written and the lines `readLine` has still to return. Each operation
    here is what the corresponding `Scope<Any>` method or `defineFunction` does
    to that state, failures included. */
module Runtime {
  import opened Wrappers
  import opened Syntax
  import opened Overloads
  import opened Scopes
  import opened Values

  datatype Machine = Machine(layers: seq<Layer<Value>>, stack: seq<nat>, parentScopes: map<nat, nat>,
                             output: seq<Value>, input: seq<string>)

  /** Every index the machine holds names an existing layer. */
  predicate Valid(m: Machine)
  {
    WellFormed(m.layers)
    && (forall k :: 0 <= k < |m.stack| ==> m.stack[k] < |m.layers|)
    && (forall d :: d in m.parentScopes ==> m.parentScopes[d] < |m.layers|)
  }

  /** `m'` differs from `m` only in the bindings of existing layers. */
  predicate Rebound(m: Machine, m': Machine)
  {
    |m'.layers| == |m.layers| && m'.stack == m.stack && m'.parentScopes == m.parentScopes
    && m'.output == m.output && m'.input == m.input
  }

  /** Everything a runtime `get` can see. */
  function Env(m: Machine): map<string, Value>
    requires Valid(m)
  {
    Visible(m.layers, TopOf(m.stack))
  }

  /** `scope.get(id)`: an unbound name is an `IllegalStateException`. */
  function Get(m: Machine, id: string): (r: Outcome<Value>)
    requires Valid(m)
    ensures r.Ok? <==> id in Env(m)
    ensures r.Ok? ==> r.value == Env(m)[id]
    ensures r.Fail? ==> r.failure == UnknownName(id)
  {
    if id in Env(m) then Ok(Env(m)[id]) else Fail(UnknownName(id))
  }

  /** `scope.enter()`: push a new layer whose parent is the current top. */
  function Enter(m: Machine): (r: Machine)
    requires Valid(m)
    ensures Valid(r) && |r.stack| == |m.stack| + 1 && r.stack[..|m.stack|] == m.stack
    ensures Env(r) == Env(m)
  {
    var r := m.(layers := m.layers + [Layer(map[], TopOf(m.stack))], stack := m.stack + [|m.layers|]);
    FreshLayerVisible(m.layers, TopOf(m.stack));
    assert r.stack[..|m.stack|] == m.stack;
    r
  }

  /** `scope.enter(layer)`: push a new layer whose parent is `parent`. */
  function EnterWith(m: Machine, parent: nat): (r: Machine)
    requires Valid(m) && parent < |m.layers|
    ensures Valid(r) && |r.stack| == |m.stack| + 1 && r.stack[..|m.stack|] == m.stack
    ensures Env(r) == Visible(m.layers, Some(parent))
  {
    var r := m.(layers := m.layers + [Layer(map[], Some(parent))], stack := m.stack + [|m.layers|]);
    FreshLayerVisible(m.layers, Some(parent));
    assert r.stack[..|m.stack|] == m.stack;
    r
  }

  /** `Layer()`: a new parentless layer in the arena, not on the stack. */
  function NewLayer(m: Machine): (r: Machine)
    requires Valid(m)
    ensures Valid(r) && r.layers == m.layers + [Layer(map[], None)] && r.stack == m.stack
    ensures r.parentScopes == m.parentScopes && r.output == m.output && r.input == m.input
  {
    FreshLayerVisible(m.layers, None);
    m.(layers := m.layers + [Layer(map[], None)])
  }

  /** `scope.leave()`: pop the top layer; an empty stack has nothing to pop. */
  function Leave(m: Machine): (r: Outcome<Machine>)
    requires Valid(m)
    ensures r.Ok? <==> |m.stack| > 0
    ensures r.Fail? ==> r.failure == NoSuchElement
    ensures r.Ok? ==> Valid(r.value) && r.value.stack == m.stack[..|m.stack| - 1]
                      && r.value.layers == m.layers
  {
    if |m.stack| == 0 then Fail(NoSuchElement)
    else Ok(m.(stack := m.stack[..|m.stack| - 1]))
  }

  /** `scope.define(id, v)`: bind in the top layer, shadowing any outer binding. */
  function Define(m: Machine, id: string, v: Value): (r: Outcome<Machine>)
    requires Valid(m)
    ensures r.Ok? <==> |m.stack| > 0
    ensures r.Fail? ==> r.failure == NoSuchElement
    ensures r.Ok? ==> Valid(r.value) && Rebound(m, r.value) && Env(r.value) == Env(m)[id := v]
  {
    if |m.stack| == 0 then Fail(NoSuchElement)
    else
      var top := m.stack[|m.stack| - 1];
      BindTopVisible(m.layers, top, id, v);
      Ok(m.(layers := Bind(m.layers, top, id, v)))
  }

  /** `scope.assign(id, v)`: rebind the name in the layer that owns it. */
  function Assign(m: Machine, id: string, v: Value): (r: Outcome<Machine>)
    requires Valid(m)
    ensures r.Ok? <==> id in Env(m)
    ensures r.Fail? ==> r.failure == UnknownName(id)
    ensures r.Ok? ==> Valid(r.value) && Rebound(m, r.value) && Env(r.value) == Env(m)[id := v]
  {
    if id !in Env(m) then Fail(UnknownName(id))
    else
      var top := m.stack[|m.stack| - 1];
      BindOwnerVisible(m.layers, top, id, v);
      Ok(m.(layers := Bind(m.layers, Owner(m.layers, top, id).value, id, v)))
  }

  /** `layer.bindings[id] = v` on a layer held by index. */
  function SetIn(m: Machine, layer: nat, id: string, v: Value): (r: Machine)
    requires Valid(m) && layer < |m.layers|
    ensures Valid(r) && Rebound(m, r)
    ensures Visible(r.layers, Some(layer)) == Visible(m.layers, Some(layer))[id := v]
  {
    BindTopVisible(m.layers, layer, id, v);
    m.(layers := Bind(m.layers, layer, id, v))
  }

  /** Layer `layer` is not on the chain a runtime `get` walks, so writing it
      changes nothing `get` sees. */
  predicate OffView(m: Machine, layer: nat)
    requires Valid(m) && layer < |m.layers|
  {
    |m.stack| == 0 || layer !in Chain(m.layers, m.stack[|m.stack| - 1])
  }

  /** Writing a layer off the view keeps the view, and keeps that layer off it. */
  lemma SetInOffView(m: Machine, layer: nat, id: string, v: Value)
    requires Valid(m) && layer < |m.layers| && OffView(m, layer)
    ensures OffView(SetIn(m, layer, id, v), layer)
    ensures Env(SetIn(m, layer, id, v)) == Env(m)
    ensures SetIn(m, layer, id, v).layers
            == m.layers[layer := Layer(m.layers[layer].bindings[id := v], m.layers[layer].parent)]
  {
    if |m.stack| > 0 {
      var top := m.stack[|m.stack| - 1];
      var after := SetIn(m, layer, id, v).layers;
      BindOffChainVisible(m.layers, top, layer, id, v);
      ChainOfKeptParents(m.layers, after, top);
    }
  }

  /** `defineFunction(name, impl)` on the runtime scope: a bound name must hold an
      overload set, which gets the variant appended where it lives; an unbound
      name gets a new set in the top layer. */
  function DefineFunction(m: Machine, name: string, impl: Function): (r: Outcome<Machine>)
    requires Valid(m)
    ensures name !in Env(m) ==> r == Define(m, name, TypeValue(OverloadedFunction(name, [impl])))
    ensures name in Env(m) ==>
              (r.Ok? <==> RuntimeAddVariant(name, Env(m)[name], impl).Ok?)
              && (r.Ok? ==> Valid(r.value) && Rebound(m, r.value)
                            && Env(r.value) == Env(m)[name := RuntimeAddVariant(name, Env(m)[name], impl).value])
  {
    match Get(m, name)
    case Fail(_) => Define(m, name, TypeValue(OverloadedFunction(name, [impl])))
    case Ok(existing) =>
      var extended :- RuntimeAddVariant(name, existing, impl);
      Assign(m, name, extended)
  }

  /** `get(name) as OverloadedFunction` on the runtime scope, extended by a variant. */
  function RuntimeAddVariant(name: string, existing: Value, impl: Function): (r: Outcome<Value>)
    ensures r.Ok? <==> existing.TypeValue? && existing.t.OverloadedFunction?
    ensures r.Ok? ==> r.value == TypeValue(OverloadedFunction(name, existing.t.functions + [impl]))
    ensures r.Fail? ==> r.failure == CastFailure
  {
    if existing.TypeValue? then
      var extended :- AddVariant(name, existing.t, impl);
      Ok(TypeValue(extended))
    else Fail(CastFailure)
  }
}
