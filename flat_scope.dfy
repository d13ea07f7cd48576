/** The earlier binding stack of string bindings, `Scope` in the top-level
    package: a plain stack of layers where lookup searches from the top of the
    stack down, with no parent links. */
module FlatScopes {
  import opened Wrappers

  /** The index of the topmost layer that binds `id`. */
  function FindLast(stack: seq<map<string, string>>, id: string): (r: Option<nat>)
    ensures r.Some? ==> r.value < |stack| && id in stack[r.value]
                        && forall j :: r.value < j < |stack| ==> id !in stack[j]
    ensures r.None? <==> forall j :: 0 <= j < |stack| ==> id !in stack[j]
    decreases |stack|
  {
    if stack == [] then None
    else if id in stack[|stack| - 1] then Some(|stack| - 1)
    else FindLast(stack[..|stack| - 1], id)
  }

  class Scope {
    var stack: seq<map<string, string>>

    /** A new scope holds exactly one empty layer. */
    constructor ()
      ensures stack == [map[]]
    {
      stack := [map[]];
    }

    /** `get`: the binding of the topmost layer that has one; a name bound in no
        layer is an `IllegalStateException`. */
    function Get(id: string): (r: Outcome<string>)
      reads this
      ensures r.Fail? <==> forall j :: 0 <= j < |stack| ==> id !in stack[j]
      ensures r.Fail? ==> r == Fail(UnknownName(id))
      ensures r.Ok? ==> exists j :: 0 <= j < |stack| && id in stack[j] && r.value == stack[j][id]
                                    && forall k :: j < k < |stack| ==> id !in stack[k]
    {
      match FindLast(stack, id)
      case None => Fail(UnknownName(id))
      case Some(j) => Ok(stack[j][id])
    }

    /** `enter`: push an empty layer. */
    method Enter()
      modifies this
      ensures stack == old(stack) + [map[]]
    {
      stack := stack + [map[]];
    }

    /** `leave`: pop the top layer; popping an empty stack fails. */
    method Leave() returns (r: Outcome<()>)
      modifies this
      ensures r.Fail? <==> |old(stack)| == 0
      ensures r.Fail? ==> r == Fail(NoSuchElement) && stack == old(stack)
      ensures r.Ok? ==> stack == old(stack)[..|old(stack)| - 1]
    {
      if |stack| == 0 {
        return Fail(NoSuchElement);
      }
      stack := stack[..|stack| - 1];
      return Ok(());
    }

    /** `set`: bind in the top layer only; with no layer it fails. */
    method Set(id: string, value: string) returns (r: Outcome<()>)
      modifies this
      ensures r.Fail? <==> |old(stack)| == 0
      ensures r.Fail? ==> r == Fail(NoSuchElement) && stack == old(stack)
      ensures r.Ok? ==> |stack| == |old(stack)|
                        && stack[|stack| - 1] == old(stack)[|stack| - 1][id := value]
                        && stack[..|stack| - 1] == old(stack)[..|stack| - 1]
    {
      if |stack| == 0 {
        return Fail(NoSuchElement);
      }
      stack := stack[..|stack| - 1] + [stack[|stack| - 1][id := value]];
      return Ok(());
    }
  }

  /** After `set(id, v)` on a non-empty stack, `get(id)` answers `v`, and every
      other name resolves as before. */
  lemma SetThenGet(stack: seq<map<string, string>>, id: string, v: string, other: string)
    requires |stack| > 0
    ensures var after := stack[..|stack| - 1] + [stack[|stack| - 1][id := v]];
      FindLast(after, id) == Some(|stack| - 1) && after[|stack| - 1][id] == v
      && (other != id ==> FindLast(after, other) == FindLast(stack, other))
  {
    var after := stack[..|stack| - 1] + [stack[|stack| - 1][id := v]];
    if other != id {
      assert forall j :: 0 <= j < |stack| ==> (other in after[j] <==> other in stack[j]);
      assert forall j :: 0 <= j < |stack| && other in stack[j] ==> after[j][other] == stack[j][other];
      FindLastAgrees(stack, after, other);
    }
  }

  /** Two stacks that agree on which layers bind a name find the same layer. */
  lemma FindLastAgrees(a: seq<map<string, string>>, b: seq<map<string, string>>, id: string)
    requires |a| == |b| && forall j :: 0 <= j < |a| ==> (id in a[j] <==> id in b[j])
    ensures FindLast(a, id) == FindLast(b, id)
  {
    match FindLast(a, id)
    case None =>
    case Some(j) =>
      var k := FindLast(b, id).value;
      assert !(j < k) && !(k < j);
  }

  /** Pushing an empty layer and popping it again leaves every lookup as it was;
      while it is pushed, every name still resolves to the same layer. */
  lemma EnterLeaveRestores(stack: seq<map<string, string>>, id: string)
    ensures var pushed := stack + [map[]];
      pushed[..|pushed| - 1] == stack && FindLast(pushed, id) == FindLast(stack, id)
  {
    var pushed := stack + [map[]];
    assert pushed[..|pushed| - 1] == stack;
  }

  /** `get` shadows: a binding in a higher layer hides every lower binding. */
  lemma ShadowingPicksTopmost(stack: seq<map<string, string>>, id: string, j: nat)
    requires j < |stack| && id in stack[j]
    ensures FindLast(stack, id).Some? && FindLast(stack, id).value >= j
  {
  }
}
