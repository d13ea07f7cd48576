/** The binding stack both passes use: one for types while checking, one for
    values while evaluating.

    A layer maps names to bindings and may have a parent layer. Lookup and
    assignment walk from the top layer of the stack up the parent links, not down
    the stack: a block's layer has the enclosing layer as its parent, while a
    function call's layer has the layer captured when the function was declared.

    Layers are objects that closures and imports hold on to, so the model keeps
    every layer ever created in an arena `layers` and refers to a layer by its
    index there; the stack holds indices. A parent is always created before its
    child, so parent indices are smaller and the parent chain ends. */
module Scopes {
  import opened Wrappers

  datatype Layer<T> = Layer(bindings: map<string, T>, parent: Option<nat>)

  /** Every parent link points to an older layer. */
  predicate WellFormed<T>(layers: seq<Layer<T>>)
  {
    forall i :: 0 <= i < |layers| && layers[i].parent.Some? ==> layers[i].parent.value < i
  }

  /** The layers a lookup from layer `i` visits, nearest first. */
  function Chain<T>(layers: seq<Layer<T>>, i: nat): (r: seq<nat>)
    requires WellFormed(layers) && i < |layers|
    ensures |r| > 0 && r[0] == i
    ensures forall k :: 0 <= k < |r| ==> r[k] <= i
    decreases i
  {
    match layers[i].parent
    case None => [i]
    case Some(p) => [i] + Chain(layers, p)
  }

  /** The layer that owns `id` as seen from layer `i`: the first on the chain that
      binds it. */
  function Owner<T>(layers: seq<Layer<T>>, i: nat, id: string): (r: Option<nat>)
    requires WellFormed(layers) && i < |layers|
    ensures r.Some? ==> r.value <= i && id in layers[r.value].bindings
    decreases i
  {
    if id in layers[i].bindings then Some(i)
    else match layers[i].parent
      case None => None
      case Some(p) => Owner(layers, p, id)
  }

  function Lookup<T>(layers: seq<Layer<T>>, i: nat, id: string): Option<T>
    requires WellFormed(layers) && i < |layers|
  {
    match Owner(layers, i, id)
    case None => None
    case Some(o) => Some(layers[o].bindings[id])
  }

  /** Every name bound in some layer of the arena. */
  function Names<T>(layers: seq<Layer<T>>): set<string>
  {
    set k, id | 0 <= k < |layers| && id in layers[k].bindings.Keys :: id
  }

  /** The bindings visible from the top layer `top`, as one map: what `get`
      answers for each name. With no top layer nothing is visible. */
  function Visible<T>(layers: seq<Layer<T>>, top: Option<nat>): (env: map<string, T>)
    requires WellFormed(layers) && (top.Some? ==> top.value < |layers|)
    ensures top.Some? ==> forall id :: (id in env <==> Lookup(layers, top.value, id).Some?)
    ensures top.Some? ==> forall id :: id in env ==> Some(env[id]) == Lookup(layers, top.value, id)
  {
    if top.None? then map[]
    else
      var i := top.value;
      assert forall id :: Lookup(layers, i, id).Some? ==> id in Names(layers) by {
        forall id | Lookup(layers, i, id).Some?
          ensures id in Names(layers)
        {
          var o := Owner(layers, i, id).value;
          assert id in layers[o].bindings.Keys;
        }
      }
      map id | id in Names(layers) && Lookup(layers, i, id).Some? :: Lookup(layers, i, id).value
  }

  /** The owner is the nearest layer of the chain binding the name; there is none
      exactly when no layer of the chain binds it. */
  lemma {:induction false} OwnerIsNearest<T>(layers: seq<Layer<T>>, i: nat, id: string)
    requires WellFormed(layers) && i < |layers|
    ensures Owner(layers, i, id).None? ==>
      forall k :: 0 <= k < |Chain(layers, i)| ==> id !in layers[Chain(layers, i)[k]].bindings
    ensures Owner(layers, i, id).Some? ==>
      exists k :: 0 <= k < |Chain(layers, i)| && Chain(layers, i)[k] == Owner(layers, i, id).value
        && forall k' :: 0 <= k' < k ==> id !in layers[Chain(layers, i)[k']].bindings
    decreases i
  {
    var c := Chain(layers, i);
    if id !in layers[i].bindings && layers[i].parent.Some? {
      var p := layers[i].parent.value;
      OwnerIsNearest(layers, p, id);
      var c' := Chain(layers, p);
      assert c == [i] + c';
      match Owner(layers, p, id)
      case None =>
        forall k | 0 <= k < |c|
          ensures id !in layers[c[k]].bindings
        {
          if k > 0 { assert c[k] == c'[k - 1]; } else { assert c[k] == i; }
        }
      case Some(o) =>
        var k :| 0 <= k < |c'| && c'[k] == o && forall k' :: 0 <= k' < k ==> id !in layers[c'[k']].bindings;
        assert c[k + 1] == o;
        forall k' | 0 <= k' < k + 1
          ensures id !in layers[c[k']].bindings
        {
          if k' > 0 { assert c[k'] == c'[k' - 1]; }
        }
    }
  }

  /** Layers created later change no lookup from an existing layer. */
  lemma {:induction false} OwnerIgnoresNewerLayers<T>(layers: seq<Layer<T>>, extra: seq<Layer<T>>, i: nat, id: string)
    requires WellFormed(layers) && WellFormed(layers + extra) && i < |layers|
    ensures Owner(layers + extra, i, id) == Owner(layers, i, id)
    ensures Lookup(layers + extra, i, id) == Lookup(layers, i, id)
    decreases i
  {
    assert (layers + extra)[i] == layers[i];
    if id !in layers[i].bindings && layers[i].parent.Some? {
      OwnerIgnoresNewerLayers(layers, extra, layers[i].parent.value, id);
    }
    match Owner(layers, i, id)
    case None =>
    case Some(o) => assert (layers + extra)[o] == layers[o];
  }

  /** Layer `i` with `id` bound to `v`; the parent link is kept. */
  function Bind<T>(layers: seq<Layer<T>>, i: nat, id: string, v: T): (r: seq<Layer<T>>)
    requires i < |layers|
    ensures |r| == |layers| && r[i].bindings == layers[i].bindings[id := v]
    ensures forall j :: 0 <= j < |layers| ==> r[j].parent == layers[j].parent
    ensures forall j :: 0 <= j < |layers| && j != i ==> r[j] == layers[j]
  {
    layers[i := Layer(layers[i].bindings[id := v], layers[i].parent)]
  }

  /** Binding a name in a layer makes every lookup of that name from that layer
      answer the new value. */
  lemma BindThenLookup<T>(layers: seq<Layer<T>>, i: nat, id: string, v: T)
    requires WellFormed(layers) && i < |layers|
    ensures WellFormed(Bind(layers, i, id, v))
    ensures Lookup(Bind(layers, i, id, v), i, id) == Some(v)
  {
  }

  /** Binding one name changes no lookup of another name, from any layer. */
  lemma {:induction false} BindKeepsOtherNames<T>(layers: seq<Layer<T>>, i: nat, id: string, v: T, j: nat, other: string)
    requires WellFormed(layers) && i < |layers| && j < |layers| && other != id
    ensures WellFormed(Bind(layers, i, id, v))
    ensures Owner(Bind(layers, i, id, v), j, other) == Owner(layers, j, other)
    ensures Lookup(Bind(layers, i, id, v), j, other) == Lookup(layers, j, other)
    decreases j
  {
    var b := Bind(layers, i, id, v);
    assert other in b[j].bindings <==> other in layers[j].bindings;
    if other !in layers[j].bindings && layers[j].parent.Some? {
      BindKeepsOtherNames(layers, i, id, v, layers[j].parent.value, other);
    }
  }

  /** Rebinding a name in the layer that owns it, as seen from `j`, changes the
      value a lookup from `j` answers and nothing about which layer owns it. */
  lemma {:induction false} BindAtOwner<T>(layers: seq<Layer<T>>, j: nat, id: string, v: T)
    requires WellFormed(layers) && j < |layers| && Owner(layers, j, id).Some?
    ensures WellFormed(Bind(layers, Owner(layers, j, id).value, id, v))
    ensures Owner(Bind(layers, Owner(layers, j, id).value, id, v), j, id) == Owner(layers, j, id)
    ensures Lookup(Bind(layers, Owner(layers, j, id).value, id, v), j, id) == Some(v)
    decreases j
  {
    var o := Owner(layers, j, id).value;
    var b := Bind(layers, o, id, v);
    if id !in layers[j].bindings {
      assert j != o;
      BindAtOwner(layers, layers[j].parent.value, id, v);
    }
  }

  /** `after` keeps every layer of `before` as it was and may add new ones. */
  ghost predicate Extends<T>(before: seq<Layer<T>>, after: seq<Layer<T>>)
  {
    |before| <= |after| && forall i :: 0 <= i < |before| ==> after[i] == before[i]
  }

  /** `after` keeps every layer of `before` except perhaps the top one of `stack`,
      which a `define` may have written without changing its parent, and may add
      new ones. */
  ghost predicate ExtendsAbove<T>(before: seq<Layer<T>>, after: seq<Layer<T>>, stack: seq<nat>)
  {
    |before| <= |after|
    && (forall i :: 0 <= i < |before| && (|stack| == 0 || i != stack[|stack| - 1]) ==> after[i] == before[i])
    && ParentsKept(before, after)
  }

  /** Keeping every layer keeps every layer but the top one. */
  lemma ExtendsIsAbove<T>(before: seq<Layer<T>>, after: seq<Layer<T>>, stack: seq<nat>)
    requires Extends(before, after)
    ensures ExtendsAbove(before, after, stack)
  {
  }

  lemma ExtendsTransitive<T>(first: seq<Layer<T>>, second: seq<Layer<T>>, third: seq<Layer<T>>)
    requires Extends(first, second) && Extends(second, third)
    ensures Extends(first, third)
  {
  }

  lemma ExtendsAboveTransitive<T>(first: seq<Layer<T>>, second: seq<Layer<T>>, third: seq<Layer<T>>, stack: seq<nat>)
    requires ExtendsAbove(first, second, stack) && ExtendsAbove(second, third, stack)
    ensures ExtendsAbove(first, third, stack)
  {
  }

  /** Writes to a layer pushed on top of `before` leave `before` as it was. */
  lemma PushedLayerAbsorbs<T>(before: seq<Layer<T>>, pushed: Layer<T>, after: seq<Layer<T>>, stack: seq<nat>)
    requires |stack| > 0 && stack[|stack| - 1] == |before|
    requires ExtendsAbove(before + [pushed], after, stack)
    ensures Extends(before, after)
  {
    forall i | 0 <= i < |before|
      ensures after[i] == before[i]
    {
      assert (before + [pushed])[i] == before[i];
    }
  }

  /** The top of a stack, as `Visible` takes it. */
  function TopOf(stack: seq<nat>): Option<nat>
  {
    if |stack| == 0 then None else Some(stack[|stack| - 1])
  }

  /** With the same stack, added layers change nothing `get` can see. */
  lemma SameStackSameEnv<T>(before: seq<Layer<T>>, after: seq<Layer<T>>, stack: seq<nat>)
    requires WellFormed(before) && WellFormed(after) && Extends(before, after)
    requires forall k :: 0 <= k < |stack| ==> stack[k] < |before|
    ensures Visible(after, TopOf(stack)) == Visible(before, TopOf(stack))
  {
    if |stack| > 0 {
      ExtendsKeepsVisible(before, after, stack[|stack| - 1]);
    }
  }

  /** Adding layers changes nothing visible from an existing layer. */
  lemma ExtendsKeepsVisible<T>(before: seq<Layer<T>>, after: seq<Layer<T>>, top: nat)
    requires WellFormed(before) && WellFormed(after) && Extends(before, after) && top < |before|
    ensures Visible(after, Some(top)) == Visible(before, Some(top))
  {
    var extra := after[|before|..];
    assert after == before + extra;
    forall id
      ensures Lookup(after, top, id) == Lookup(before, top, id)
    {
      OwnerIgnoresNewerLayers(before, extra, top, id);
    }
  }

  /** A new empty layer sees exactly what its parent sees, and nothing without one. */
  lemma FreshLayerVisible<T>(layers: seq<Layer<T>>, parent: Option<nat>)
    requires WellFormed(layers) && (parent.Some? ==> parent.value < |layers|)
    ensures WellFormed(layers + [Layer(map[], parent)])
    ensures Visible(layers + [Layer(map[], parent)], Some(|layers|)) == Visible(layers, parent)
  {
    var after := layers + [Layer(map[], parent)];
    if parent.Some? {
      forall id
        ensures Lookup(after, |layers|, id) == Lookup(layers, parent.value, id)
      {
        OwnerIgnoresNewerLayers(layers, [Layer(map[], parent)], parent.value, id);
      }
    }
  }

  /** Lookups from `top` that differ only in `id`, which now answers `v`, make
      the same visible map with `id` replaced. */
  lemma VisibleReplaced<T>(before: seq<Layer<T>>, after: seq<Layer<T>>, top: nat, id: string, v: T)
    requires WellFormed(before) && WellFormed(after) && top < |before| && top < |after|
    requires forall other :: other != id ==> Lookup(after, top, other) == Lookup(before, top, other)
    requires Lookup(after, top, id) == Some(v)
    ensures Visible(after, Some(top)) == Visible(before, Some(top))[id := v]
  {
    var a := Visible(after, Some(top));
    var b := Visible(before, Some(top))[id := v];
    forall x
      ensures x in a <==> x in b
    {
      if x != id {
        assert Lookup(after, top, x) == Lookup(before, top, x);
      }
    }
    forall x | x in a
      ensures a[x] == b[x]
    {
      if x != id {
        assert Lookup(after, top, x) == Lookup(before, top, x);
      }
    }
  }

  /** Binding a name in the top layer adds or replaces exactly that binding in
      what the top layer sees. */
  lemma BindTopVisible<T>(layers: seq<Layer<T>>, top: nat, id: string, v: T)
    requires WellFormed(layers) && top < |layers|
    ensures WellFormed(Bind(layers, top, id, v))
    ensures Visible(Bind(layers, top, id, v), Some(top)) == Visible(layers, Some(top))[id := v]
  {
    var after := Bind(layers, top, id, v);
    forall other | other != id
      ensures Lookup(after, top, other) == Lookup(layers, top, other)
    {
      BindKeepsOtherNames(layers, top, id, v, top, other);
    }
    BindThenLookup(layers, top, id, v);
    VisibleReplaced(layers, after, top, id, v);
  }

  /** Rebinding a name where it is owned replaces exactly that binding in what the
      top layer sees. */
  lemma BindOwnerVisible<T>(layers: seq<Layer<T>>, top: nat, id: string, v: T)
    requires WellFormed(layers) && top < |layers| && Owner(layers, top, id).Some?
    ensures WellFormed(Bind(layers, Owner(layers, top, id).value, id, v))
    ensures Visible(Bind(layers, Owner(layers, top, id).value, id, v), Some(top)) == Visible(layers, Some(top))[id := v]
  {
    var o := Owner(layers, top, id).value;
    var after := Bind(layers, o, id, v);
    forall other | other != id
      ensures Lookup(after, top, other) == Lookup(layers, top, other)
    {
      BindKeepsOtherNames(layers, o, id, v, top, other);
    }
    BindAtOwner(layers, top, id, v);
    VisibleReplaced(layers, after, top, id, v);
  }

  class Scope<T> {
    var layers: seq<Layer<T>>
    var stack: seq<nat>

    ghost predicate Valid()
      reads this
    {
      WellFormed(layers) && forall k :: 0 <= k < |stack| ==> stack[k] < |layers|
    }

    /** A new scope: one empty layer on the stack. */
    constructor ()
      ensures Valid()
      ensures layers == [Layer(map[], None)] && stack == [0]
    {
      layers := [Layer(map[], None)];
      stack := [0];
    }

    /** The index of the top layer, if the stack is not empty. */
    function Top(): (r: Option<nat>)
      reads this
      requires Valid()
      ensures r.Some? <==> |stack| > 0
      ensures r.Some? ==> r.value == stack[|stack| - 1] && r.value < |layers|
    {
      if |stack| == 0 then None else Some(stack[|stack| - 1])
    }

    /** Everything `get` can see, as one map. */
    function Env(): map<string, T>
      reads this
      requires Valid()
    {
      Visible(layers, Top())
    }

    /** `get`: the binding seen from the top layer; an unbound name, or an empty
        stack, is an `IllegalStateException`. */
    function Get(id: string): (r: Outcome<T>)
      reads this
      requires Valid()
      ensures r.Fail? ==> r == Fail(UnknownName(id))
      ensures r.Ok? <==> |stack| > 0 && Owner(layers, stack[|stack| - 1], id).Some?
      ensures r.Ok? ==> Some(r.value) == Lookup(layers, stack[|stack| - 1], id)
      ensures r == (if id in Env() then Ok(Env()[id]) else Fail(UnknownName(id)))
    {
      match Top()
      case None => Fail(UnknownName(id))
      case Some(t) =>
        match Lookup(layers, t, id)
        case None => Fail(UnknownName(id))
        case Some(v) => Ok(v)
    }

    /** `enter()`: push a new empty layer whose parent is the current top layer. */
    method Enter()
      requires Valid()
      modifies this
      ensures Valid()
      ensures layers == old(layers) + [Layer(map[], old(Top()))]
      ensures stack == old(stack) + [|old(layers)|]
      ensures Env() == old(Env())
    {
      var parent := Top();
      FreshLayerVisible(layers, parent);
      layers := layers + [Layer(map[], parent)];
      stack := stack + [|layers| - 1];
    }

    /** `enter(layer)`: push a new empty layer whose parent is the given layer. */
    method EnterWith(parent: nat)
      requires Valid() && parent < |layers|
      modifies this
      ensures Valid()
      ensures layers == old(layers) + [Layer(map[], Some(parent))]
      ensures stack == old(stack) + [|old(layers)|]
      ensures Env() == Visible(old(layers), Some(parent))
    {
      FreshLayerVisible(layers, Some(parent));
      layers := layers + [Layer(map[], Some(parent))];
      stack := stack + [|layers| - 1];
    }

    /** `Layer()`: a fresh empty layer without a parent, not on the stack. */
    method NewLayer() returns (index: nat)
      requires Valid()
      modifies this
      ensures Valid()
      ensures index == |old(layers)| && layers == old(layers) + [Layer(map[], None)]
      ensures stack == old(stack)
      ensures Env() == old(Env())
    {
      var after := layers + [Layer(map[], None)];
      FreshLayerVisible(layers, None);
      assert after[..|layers|] == layers;
      if |stack| > 0 {
        ExtendsKeepsVisible(layers, after, stack[|stack| - 1]);
      }
      layers := after;
      index := |layers| - 1;
    }

    /** `leave()`: pop the top layer; the layer itself survives for whoever
        captured it. Popping an empty stack fails. */
    method Leave() returns (r: Outcome<()>)
      requires Valid()
      modifies this
      ensures Valid()
      ensures r == (if |old(stack)| == 0 then Fail(NoSuchElement) else Ok(()))
      ensures r.Fail? ==> stack == old(stack)
      ensures r.Ok? ==> stack == old(stack)[..|old(stack)| - 1]
      ensures layers == old(layers)
    {
      if |stack| == 0 {
        return Fail(NoSuchElement);
      }
      stack := stack[..|stack| - 1];
      return Ok(());
    }

    /** `define`: bind in the top layer, replacing a binding of that layer. */
    method Define(id: string, v: T) returns (r: Outcome<()>)
      requires Valid()
      modifies this
      ensures Valid()
      ensures stack == old(stack)
      ensures r == (if |stack| == 0 then Fail(NoSuchElement) else Ok(()))
      ensures r.Fail? ==> layers == old(layers)
      ensures r.Ok? ==> layers == Bind(old(layers), stack[|stack| - 1], id, v)
      ensures r.Ok? ==> Env() == old(Env())[id := v]
      ensures r.Ok? ==> ChainKept(old(layers), layers, stack[|stack| - 1]) && ParentsKept(old(layers), layers)
    {
      if |stack| == 0 {
        return Fail(NoSuchElement);
      }
      BindTopVisible(layers, stack[|stack| - 1], id, v);
      BindOnChain(layers, stack[|stack| - 1], stack[|stack| - 1], id, v);
      layers := Bind(layers, stack[|stack| - 1], id, v);
      return Ok(());
    }

    /** `layer.bindings[id] = v` on a layer held by reference. */
    method SetIn(layer: nat, id: string, v: T)
      requires Valid() && layer < |layers|
      modifies this
      ensures Valid()
      ensures stack == old(stack)
      ensures layers == Bind(old(layers), layer, id, v)
    {
      layers := Bind(layers, layer, id, v);
    }

    /** `assign`: rebind the name in the layer that owns it as seen from the top
        layer; an unbound name fails and changes nothing. */
    method Assign(id: string, v: T) returns (r: Outcome<()>)
      requires Valid()
      modifies this
      ensures Valid()
      ensures stack == old(stack)
      ensures r == (if old(Get(id)).Ok? then Ok(()) else Fail(UnknownName(id)))
      ensures r.Fail? ==> layers == old(layers)
      ensures r.Ok? ==> layers == Bind(old(layers), Owner(old(layers), stack[|stack| - 1], id).value, id, v)
      ensures r.Ok? ==> Env() == old(Env())[id := v]
      ensures r.Ok? ==> ChainKept(old(layers), layers, stack[|stack| - 1]) && ParentsKept(old(layers), layers)
    {
      if |stack| == 0 {
        return Fail(UnknownName(id));
      }
      match Owner(layers, stack[|stack| - 1], id)
      case None =>
        return Fail(UnknownName(id));
      case Some(o) =>
        BindOwnerVisible(layers, stack[|stack| - 1], id, v);
        OwnerOnChain(layers, stack[|stack| - 1], id);
        BindOnChain(layers, stack[|stack| - 1], o, id, v);
        layers := Bind(layers, o, id, v);
        return Ok(());
    }
  }

  // ------------------------------------------------------------- properties

  /** Pushing a layer and popping it again restores the stack, and every name
      resolves as before. */
  lemma EnterLeaveRestores<T>(layers: seq<Layer<T>>, stack: seq<nat>, parent: Option<nat>, id: string)
    requires WellFormed(layers) && |stack| > 0 && forall k :: 0 <= k < |stack| ==> stack[k] < |layers|
    requires parent.None? || parent.value < |layers|
    ensures var layers' := layers + [Layer(map[], parent)];
      var stack' := stack + [|layers|];
      WellFormed(layers') && stack'[..|stack'| - 1] == stack
      && Lookup(layers', stack[|stack| - 1], id) == Lookup(layers, stack[|stack| - 1], id)
  {
    var layers' := layers + [Layer(map[], parent)];
    OwnerIgnoresNewerLayers(layers, [Layer(map[], parent)], stack[|stack| - 1], id);
  }

  /** A layer pushed for a block sees the enclosing bindings until it binds the
      name itself; a `define` in it shadows without touching the enclosing
      layer, so after the pop the outer value is back. */
  lemma ShadowThenLeave<T>(layers: seq<Layer<T>>, top: nat, id: string, v: T)
    requires WellFormed(layers) && top < |layers|
    ensures var inner := |layers|;
      var pushed := layers + [Layer(map[], Some(top))];
      WellFormed(pushed)
      && Lookup(pushed, inner, id) == Lookup(layers, top, id)
      && Lookup(Bind(pushed, inner, id, v), inner, id) == Some(v)
      && Lookup(Bind(pushed, inner, id, v), top, id) == Lookup(layers, top, id)
  {
    var inner := |layers|;
    var pushed := layers + [Layer(map[], Some(top))];
    OwnerIgnoresNewerLayers(layers, [Layer(map[], Some(top))], top, id);
    var bound := Bind(pushed, inner, id, v);
    assert bound == layers + [Layer(map[id := v], Some(top))];
    OwnerIgnoresNewerLayers(layers, [Layer(map[id := v], Some(top))], top, id);
  }

  /** A layer pushed with an explicit parent sees exactly what that parent sees:
      a function body sees its declaration's layer, never the caller's. */
  lemma CalleeSeesOnlyClosure<T>(layers: seq<Layer<T>>, closure: nat, id: string)
    requires WellFormed(layers) && closure < |layers|
    ensures var pushed := layers + [Layer(map[], Some(closure))];
      WellFormed(pushed) && Lookup(pushed, |layers|, id) == Lookup(layers, closure, id)
  {
    OwnerIgnoresNewerLayers(layers, [Layer(map[], Some(closure))], closure, id);
  }

  // ------------------------------------------------ frames of whole phases

  /** `after` keeps every layer of `before` that a lookup from `top` does not
      visit, and may add new ones: a declaration may write anywhere on the
      chain it resolves names through, and nowhere else. */
  ghost predicate ChainKept<T>(before: seq<Layer<T>>, after: seq<Layer<T>>, top: nat)
  {
    WellFormed(before) && top < |before| && |before| <= |after|
    && forall i :: 0 <= i < |before| && i !in Chain(before, top) ==> after[i] == before[i]
  }

  /** No existing layer got a new parent. */
  ghost predicate ParentsKept<T>(before: seq<Layer<T>>, after: seq<Layer<T>>)
  {
    |before| <= |after| && forall i :: 0 <= i < |before| ==> after[i].parent == before[i].parent
  }

  /** The chain from a layer follows parent links only, so it survives any change
      that keeps them. */
  lemma {:induction false} ChainOfKeptParents<T>(before: seq<Layer<T>>, after: seq<Layer<T>>, top: nat)
    requires WellFormed(before) && WellFormed(after) && ParentsKept(before, after) && top < |before|
    ensures Chain(after, top) == Chain(before, top)
    decreases top
  {
    match before[top].parent
    case None =>
    case Some(p) => ChainOfKeptParents(before, after, p);
  }

  lemma ChainKeptTransitive<T>(first: seq<Layer<T>>, second: seq<Layer<T>>, third: seq<Layer<T>>, top: nat)
    requires ChainKept(first, second, top) && ParentsKept(first, second) && WellFormed(second)
    requires ChainKept(second, third, top) && ParentsKept(second, third)
    ensures ChainKept(first, third, top) && ParentsKept(first, third)
  {
    ChainOfKeptParents(first, second, top);
  }

  /** Writing the top layer only is writing on its chain. */
  lemma AboveIsChainKept<T>(before: seq<Layer<T>>, after: seq<Layer<T>>, stack: seq<nat>)
    requires WellFormed(before) && |stack| > 0 && stack[|stack| - 1] < |before|
    requires ExtendsAbove(before, after, stack)
    ensures ChainKept(before, after, stack[|stack| - 1])
  {
  }

  /** A layer a lookup resolves a name in lies on the chain it walks. */
  lemma OwnerOnChain<T>(layers: seq<Layer<T>>, top: nat, id: string)
    requires WellFormed(layers) && top < |layers| && Owner(layers, top, id).Some?
    ensures Owner(layers, top, id).value in Chain(layers, top)
  {
    OwnerIsNearest(layers, top, id);
  }

  /** Binding in a layer of the chain keeps the chain frame and every parent. */
  lemma BindOnChain<T>(layers: seq<Layer<T>>, top: nat, i: nat, id: string, v: T)
    requires WellFormed(layers) && top < |layers| && i < |layers| && i in Chain(layers, top)
    ensures ChainKept(layers, Bind(layers, i, id, v), top) && ParentsKept(layers, Bind(layers, i, id, v))
  {
  }

  /** An import checks the imported file in a child of a fresh parentless layer:
      whatever that check writes on its own chain leaves every older layer alone. */
  lemma FreshChainKeepsOlder<T>(before: seq<Layer<T>>, after: seq<Layer<T>>)
    requires WellFormed(before)
    requires ChainKept(before + [Layer(map[], None), Layer(map[], Some(|before|))], after, |before| + 1)
    ensures Extends(before, after)
  {
    var pushed := before + [Layer(map[], None), Layer(map[], Some(|before|))];
    assert Chain(pushed, |before|) == [|before|];
    assert Chain(pushed, |before| + 1) == [|before| + 1, |before|];
    forall i | 0 <= i < |before|
      ensures after[i] == before[i]
    {
      assert pushed[i] == before[i];
    }
  }

  /** A lookup only reads the layers on its chain: where those are unchanged, so
      is every lookup from the top one. */
  lemma {:induction false} ChainUnchangedLookup<T>(before: seq<Layer<T>>, after: seq<Layer<T>>, top: nat, id: string)
    requires WellFormed(before) && WellFormed(after) && top < |before| <= |after|
    requires forall k :: k in Chain(before, top) ==> after[k] == before[k]
    ensures Owner(after, top, id) == Owner(before, top, id)
    ensures Lookup(after, top, id) == Lookup(before, top, id)
    decreases top
  {
    assert after[top] == before[top];
    if id !in before[top].bindings && before[top].parent.Some? {
      var p := before[top].parent.value;
      assert Chain(before, top) == [top] + Chain(before, p);
      ChainUnchangedLookup(before, after, p, id);
    }
    match Owner(before, top, id)
    case None =>
    case Some(o) =>
      OwnerOnChain(before, top, id);
  }

  /** Binding in a layer off the chain of `top` changes nothing `top` sees: the
      importer's layer, written while the imported file's layer is on top. */
  lemma BindOffChainVisible<T>(layers: seq<Layer<T>>, top: nat, i: nat, id: string, v: T)
    requires WellFormed(layers) && top < |layers| && i < |layers| && i !in Chain(layers, top)
    ensures WellFormed(Bind(layers, i, id, v))
    ensures Visible(Bind(layers, i, id, v), Some(top)) == Visible(layers, Some(top))
  {
    var after := Bind(layers, i, id, v);
    forall other
      ensures Lookup(after, top, other) == Lookup(layers, top, other)
    {
      ChainUnchangedLookup(layers, after, top, other);
    }
  }

  /** A frame that wrote only the top layer, after one that wrote only the chain
      of that layer, is still one that wrote only the chain. */
  lemma ChainKeptThenAbove<T>(start: seq<Layer<T>>, before: seq<Layer<T>>, after: seq<Layer<T>>, stack: seq<nat>)
    requires |stack| > 0 && WellFormed(before)
    requires ChainKept(start, before, stack[|stack| - 1]) && ParentsKept(start, before)
    requires ExtendsAbove(before, after, stack)
    ensures ChainKept(start, after, stack[|stack| - 1]) && ParentsKept(start, after)
  {
    AboveIsChainKept(before, after, stack);
    ChainKeptTransitive(start, before, after, stack[|stack| - 1]);
  }

  /** Keeping every layer keeps the chain of any of them. */
  lemma ExtendsIsChainKept<T>(before: seq<Layer<T>>, after: seq<Layer<T>>, top: nat)
    requires WellFormed(before) && top < |before| && Extends(before, after)
    ensures ChainKept(before, after, top) && ParentsKept(before, after)
  {
  }
}
