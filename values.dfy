/** Runtime values, the operators the evaluator applies to them, and the text a
    value contributes to a string concatenation. */
module Values {
  import opened Wrappers
  import opened KotlinInt
  import opened Syntax
  import opened BuiltIns
  import opened Types
  import Diagnostics

  datatype Value =
    | IntValue(i: Int32)
    | StringValue(s: string)
    | BooleanValue(b: bool)
      /** A type used as a value: a symbol evaluates to its `SymbolType`, and a
          function name is bound to its `OverloadedFunction`. */
    | TypeValue(t: Type)
      /** A record built by a constructor call. */
    | DataObject(dataType: Type, values: map<string, Value>)
      /** An object passed where an interface is expected, together with the
          variants chosen for its concrete type. */
    | IIO(value: Value, concreteType: Type, functions: set<Overloads>)
      /** What `printLine` returns. */
    | UnitValue

  // ---------------------------------------------------------- function views

  /** How interface satisfaction sees a typing binding. */
  function TypingBinding(t: Type): Binding
  {
    if t.OverloadedFunction? then FunctionBinding(t.functions) else OtherBinding
  }

  /** How interface satisfaction sees a runtime binding: only a function name's
      overload set survives the cast to `OverloadedFunction`. */
  function RuntimeBinding(v: Value): Binding
  {
    if v.TypeValue? && v.t.OverloadedFunction? then FunctionBinding(v.t.functions) else OtherBinding
  }

  function TypingView(env: map<string, Type>): (view: FunctionScope)
    ensures view.Keys == env.Keys
    ensures forall id :: id in env ==> view[id] == TypingBinding(env[id])
  {
    map id | id in env :: TypingBinding(env[id])
  }

  function RuntimeView(env: map<string, Value>): (view: FunctionScope)
    ensures view.Keys == env.Keys
    ensures forall id :: id in env ==> view[id] == RuntimeBinding(env[id])
  {
    map id | id in env :: RuntimeBinding(env[id])
  }

  // ------------------------------------------------------------------- casts

  /** `as Int`. */
  function AsInt(v: Value): (r: Outcome<Int32>)
    ensures r.Ok? <==> v.IntValue?
    ensures r.Ok? ==> r.value == v.i
    ensures r.Fail? ==> r.failure == CastFailure
  {
    if v.IntValue? then Ok(v.i) else Fail(CastFailure)
  }

  /** `as Boolean`. */
  function AsBool(v: Value): (r: Outcome<bool>)
    ensures r.Ok? <==> v.BooleanValue?
    ensures r.Ok? ==> r.value == v.b
    ensures r.Fail? ==> r.failure == CastFailure
  {
    if v.BooleanValue? then Ok(v.b) else Fail(CastFailure)
  }

  /** `as String`. */
  function AsString(v: Value): (r: Outcome<string>)
    ensures r.Ok? <==> v.StringValue?
    ensures r.Ok? ==> r.value == v.s
    ensures r.Fail? ==> r.failure == CastFailure
  {
    if v.StringValue? then Ok(v.s) else Fail(CastFailure)
  }

  // -------------------------------------------------------------- operators

  /** `%` on two values already cast to `Int`; a zero divisor is an
      `ArithmeticException`. */
  function Remainder(a: Int32, b: Int32): (r: Outcome<Value>)
    ensures r.Fail? <==> b == 0
    ensures r.Fail? ==> r.failure == DivisionByZero
    ensures r.Ok? ==> r.value.IntValue? && a == Quot(a, b) * b + r.value.i
                      && (r.value.i == 0 || (r.value.i < 0 <==> a < 0))
  {
    if b == 0 then Fail(DivisionByZero)
    else
      RemCompletesQuot(a, b);
      Ok(IntValue(Rem(a, b)))
  }

  /** The text `String.plus` appends for a value: its `toString`. Records and
      interface-bound objects have text this model does not give. */
  function ValueText(v: Value): Outcome<string>
  {
    match v
    case IntValue(i) => Ok(Text(i))
    case StringValue(s) => Ok(s)
    case BooleanValue(b) => Ok(if b then "true" else "false")
    case TypeValue(t) =>
      (match Diagnostics.TypeText(t)
       case Some(text) => Ok(text)
       case None => Fail(NotModelled))
    case UnitValue => Ok("kotlin.Unit")
    case _ => Fail(NotModelled)
  }

  /** String concatenation: the left text followed by the right value's text. */
  function Concat(left: string, right: Value): (r: Outcome<Value>)
    ensures r.Ok? <==> ValueText(right).Ok?
    ensures r.Ok? ==> r.value.StringValue? && |left| <= |r.value.s|
                      && r.value.s[..|left|] == left && r.value.s[|left|..] == ValueText(right).value
  {
    var text :- ValueText(right);
    var s := left + text;
    assert s[..|left|] == left && s[|left|..] == text;
    Ok(StringValue(s))
  }

  /** A number's text reads back as the same number, so concatenating a number
      and parsing the appended part gives the number again. */
  lemma NumberTextReadsBack(n: Int32, left: string)
    ensures Concat(left, IntValue(n)).Ok?
    ensures ParseInt(Concat(left, IntValue(n)).value.s[|left|..]) == Ok(n)
  {
    TextRoundTrip(n);
  }

  /** A string appends itself, a Boolean its keyword. */
  lemma StringAndBooleanText(left: string, right: string, b: bool)
    ensures Concat(left, StringValue(right)) == Ok(StringValue(left + right))
    ensures Concat(left, BooleanValue(b)) == Ok(StringValue(left + if b then "true" else "false"))
  {
  }

  /** Example: the symbol `'A` appended to a string. */
  lemma SymbolText()
    ensures Concat("x", TypeValue(SymbolType("'A"))) == Ok(StringValue("x" + "SymbolType(name='A)"))
  {
    assert "SymbolType(name=" + "'A" + ")" == "SymbolType(name='A)";
  }
}
