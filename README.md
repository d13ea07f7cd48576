# happy: type checker and evaluator, modelled in Dafny

This project models the `happy` package of kt-happy, a small statically
typed scripting language implemented in Kotlin. It covers everything from
the abstract syntax tree onward:

- the types and when one is assignable from another (`Type.kt`);
- overload resolution (`Function.kt`, `IIO.kt`);
- the diagnostics and their locations (`TypeError.kt`, the `Loc` parser of the tests);
- the binding stacks (`Scope.kt`, and the layered `Scope<T>` the `happy`
  package uses);
- the global context (`Context.kt`);
- the built-in types and functions;
- `typeCheck`/`type` of every AST node;
- `eval` of every AST node, including source files and imports.

Kotlin's `Int` is modelled as 32-bit two's complement. Its `%` is the
truncated remainder. Exceptions become a `Fail` outcome that names the
exception.

Modules (one per file):

| module | file | what it holds |
|---|---|---|
| Wrappers | wrappers.dfy | `Option`, `Outcome` (the result-or-exception type) and the failure kinds |
| KotlinInt | kotlin_int.dfy | 32-bit wrap-around, `%`, `Int.toString`, `String.toInt` |
| Syntax | syntax.dfy | types, functions, AST nodes and their sizes |
| BuiltIns | builtins.dfy | the built-in types and functions |
| Types | types.dfy | `assignableFrom`, `completeFunctions`, `union` |
| Overloads | overloads.dfy | variant matching, `getVariant`, `getStaticVariant`, `IIO.getVariant`, `defineFunctionType` on a binding |
| Diagnostics | diagnostics.dfy | the diagnostics, their messages, `Loc.toString` and the test parser |
| FlatScopes | flat_scope.dfy | the plain binding stack of `Scope.kt` |
| Scopes | scopes.dfy | the layered scope: an arena of layers with parent links and a stack of layer indices, as a class |
| Values | values.dfy | runtime values, casts, operators, text of a value |
| Context | context.dfy | the global context as a class: both scopes, the diagnostics, and the state type checking leaves on nodes |
| Annotations | annotations.dfy | `TypeAnnotation.toType` |
| TypingRules | typing_rules.dfy | the typing of expressions and statements as functions |
| DeclarationRules | declaration_rules.dfy | the typing of declarations and files as functions |
| Checker | checker.dfy | `type()`/`typeCheck()` of expressions and statements as methods on the context |
| Declarations | declarations.dfy | `declareType`, `declareFunction`, `typeCheckBody` as methods |
| Files | files.dfy | `SourceFile.typeCheck`, `ImportDeclaration.typeCheck` as methods |
| Runtime | runtime.dfy | the evaluator's state as a value, and the runtime scope operations on it |
| Semantics | semantics.dfy | `eval()` of every node as a function of that state |
| Evaluator | evaluator.dfy | `eval()` of expressions and statements as methods on the context |
| Interpreter | interpreter.dfy | `SourceFile.eval`, `ImportDeclaration.eval` and the declaration passes as methods |
| EvalProperties | eval_properties.dfy | what evaluation promises for particular nodes: literals, `if`, `match`, block scope, the two loops, and the examples of the interpreter and scope tests |
| EvalFrame | eval_frame.dfy | which names evaluation can add and where: an expression none, a statement only in the top layer, a call nothing its caller sees, an import exactly the listed names |

The imperative parts (the scopes, the context, every `typeCheck` and `eval`)
are methods on the `Context` and `Scope` classes. Each method is proved to
produce exactly what a pure rule function produces for the state it starts
in. The properties are then proved about those rule functions.

## Model

| member | source | states |
|---|---|---|
| KotlinInt.Wrap | src/main/kotlin/happy/ast/expression/math/Addition.kt:19 | the 32-bit result of Kotlin `Int` arithmetic is congruent to the exact result modulo 2^32, and equals it when the exact result fits |
| KotlinInt.Rem | src/main/kotlin/happy/ast/expression/math/Mod.kt:16 | `%` on `Int`: the remainder is smaller in magnitude than the divisor, and is zero or has the dividend's sign |
| KotlinInt.RemCompletesQuot | src/main/kotlin/happy/ast/expression/math/Mod.kt:16 | `a == (a / b) * b + a % b` with the quotient truncated toward zero |
| KotlinInt.DigitsRoundTrip | src/test/kotlin/happy/Loc.kt:8 | the digits of a natural number read back as that number |
| KotlinInt.ParseUnsigned | src/test/kotlin/happy/Loc.kt:8 | `toInt` of unsigned digits that fit in 32 bits gives their value |
| KotlinInt.ParseNegative | src/test/kotlin/happy/Loc.kt:8 | `toInt` of a minus sign and digits gives the negated value when it fits |
| KotlinInt.TextRoundTrip | src/main/kotlin/happy/TypeError.kt:38-40 | `toInt` of `Int.toString` gives back every 32-bit integer |
| KotlinInt.ParseIntRejectsSignOnly | src/test/kotlin/happy/Loc.kt:8 | the empty text and a lone sign fail `toInt` with a NumberFormatException |
| BuiltIns.BuiltInTypesDistinct | src/main/kotlin/happy/BuiltInTypes.kt:3-7 | the five built-in types are pairwise different and each is named by its label |
| BuiltIns.RegisteredTypesExact | src/main/kotlin/happy/BuiltInTypes.kt:9 | the registered set is exactly Any, Integer, String and Boolean; Nothing is not in it |
| Values.TypingView | src/main/kotlin/happy/Type.kt:25 | interface satisfaction sees every typing binding, an overload set as its variants and anything else as a failing cast |
| Values.RuntimeView | src/main/kotlin/happy/Type.kt:25 | the same view of the runtime bindings: only a function name's overload set passes the cast |
| Values.AsInt | src/main/kotlin/happy/ast/expression/Expression.kt:9 | `as Int` succeeds exactly on integers, with their value, and is a ClassCastException otherwise |
| Values.AsBool | src/main/kotlin/happy/ast/expression/Negation.kt:10 | `as Boolean` succeeds exactly on Booleans, with their value, and is a ClassCastException otherwise |
| Values.AsString | src/main/kotlin/happy/ast/expression/math/Addition.kt:18 | `as String` succeeds exactly on strings, with their text, and is a ClassCastException otherwise |
| Values.Remainder | src/main/kotlin/happy/ast/expression/math/Mod.kt:16 | a zero divisor is an ArithmeticException; otherwise the result completes the truncated division and has the dividend's sign |
| Values.Concat | src/main/kotlin/happy/ast/expression/math/Addition.kt:18 | string `+` keeps the left text as a prefix and appends exactly the right value's text |
| Values.NumberTextReadsBack | src/main/kotlin/happy/ast/expression/math/Addition.kt:18 | a number appended to a string reads back as the same number |
| Values.StringAndBooleanText | src/main/kotlin/happy/ast/expression/math/Addition.kt:18 | a string appends itself and a Boolean its keyword |
| Values.SymbolText | src/main/kotlin/happy/Type.kt:69 | a symbol appends the text of its data class, e.g. `SymbolType(name='A)` |
| Types.AssignableFrom | src/main/kotlin/happy/Type.kt:6-29 | only an interface with a scope can fail, and never when the base check (`Any`, or the same type) already accepts |
| Types.AssignableReflexive | src/main/kotlin/happy/Type.kt:6 | every type is assignable from itself |
| Types.AnyAcceptsEverything | src/main/kotlin/happy/Type.kt:6 | `Any` is assignable from every type |
| Types.PlainTypesAreNominal | src/main/kotlin/happy/Type.kt:6-11 | a type that is neither an enum nor an interface accepts only itself (and `Any` accepts everything) |
| Types.EnumAcceptsMember | src/main/kotlin/happy/Type.kt:14-16 | an enum accepts a non-enum candidate exactly when it is one of its members |
| Types.EnumAcceptsSubset | src/main/kotlin/happy/Type.kt:16 | an enum accepts an enum candidate exactly when the candidate's members are a subset of its own |
| Types.InterfaceWithoutScope | src/main/kotlin/happy/Type.kt:20-22 | without a scope an interface is assignable only from itself |
| Types.AllPresentTrue | src/main/kotlin/happy/Type.kt:22 | `all { presentIn }` is true exactly when every required set is present |
| Types.AllPresentFalse | src/main/kotlin/happy/Type.kt:22-28 | `all { presentIn }` is false exactly when some required set is absent and all before it were present |
| Types.InterfaceAcceptsIff | src/main/kotlin/happy/Type.kt:20-29 | with a scope, an interface accepts another type exactly when every required name is bound to an overload set with a variant whose first parameter is that type |
| Types.CompleteFunctions | src/main/kotlin/happy/Type.kt:31-42 | each set keeps its name and size; each stub keeps name and return type and gets exactly one leading `self` parameter of the given type |
| Types.UnionShape | src/main/kotlin/happy/Type.kt:71-74 | a union of one flattened member is that member; any other gives `EnumType("Inline", members)` |
| Types.UnionMembers | src/main/kotlin/happy/Type.kt:72 | the flattened members are the non-enum inputs plus the members of the enum inputs |
| Types.UnionOfOne | src/main/kotlin/happy/Type.kt:73 | a single non-enum type is its own union |
| Types.UnionOfTwo | src/test/kotlin/happy/TypeCheckerTest.kt:123-124 | two different non-enum branch types give the enum `Inline` of both |
| Types.UnionIdempotent | src/main/kotlin/happy/Type.kt:71-74 | the union of a union is the same union |
| Overloads.ArgumentChecks | src/main/kotlin/happy/Function.kt:40 | one verdict per parameter, each the assignability of that parameter's type from its argument's type; the list fails exactly when some check fails |
| Overloads.MatchingIff | src/main/kotlin/happy/Function.kt:37-40 | a variant matches exactly when the counts agree and every parameter type is assignable from its argument type; it fails exactly when the counts agree and some check fails |
| Overloads.FindVariantFails | src/main/kotlin/happy/Function.kt:34-35 | the filter fails exactly when checking some variant fails |
| Overloads.FindVariantInOrder | src/main/kotlin/happy/Function.kt:34-35 | the variants found are matching ones, in declaration order, and no matching variant is left out |
| Overloads.PickedEmpty | src/main/kotlin/happy/Function.kt:27 | no candidate remains exactly when no variant is selected |
| Overloads.PickedSeveral | src/main/kotlin/happy/Function.kt:27 | two or more candidates remain exactly when two different variants are selected |
| Overloads.PickIsUnique | src/main/kotlin/happy/Function.kt:26-32 | `singleOrNull` gives `f` exactly when `f` is the variant at the only selected position |
| Overloads.GetVariantUnique | src/main/kotlin/happy/Function.kt:26-28 | `getVariant` returns `f` exactly when `f` is the one matching variant |
| Overloads.GetStaticVariantUnique | src/main/kotlin/happy/Function.kt:30-32 | `getStaticVariant` returns `f` exactly when `f` is not an interface stub and is the one matching variant among those that are not |
| Overloads.GetVariantNoneOrSeveral | src/main/kotlin/happy/Function.kt:26-28 | with no matching variant, or with two, `getVariant` throws |
| Overloads.AddVariant | src/main/kotlin/happy/Function.kt:65-66 | a binding that is an overload set gets the new variant appended last, under the name; anything else fails the cast |
| Overloads.FindVariantAppend | src/main/kotlin/happy/Function.kt:66 | appending a variant keeps every earlier match, in order, and adds the new one last when it matches |
| Overloads.AddVariantResolvesNew | src/test/kotlin/happy/InterpreterTest.kt:161-166 | when no earlier variant matches and the new one does, the extended set resolves to the new one: both `combine` overloads resolve |
| Overloads.IIOGetVariantSpec | src/main/kotlin/happy/IIO.kt:5-6 | a late-bound pick fails unless exactly one held set has the name, and then is `getVariant` on that set with the concrete type first |
| Overloads.IIOVariantTakesConcreteFirst | src/main/kotlin/happy/IIO.kt:6 | the picked variant has one more parameter than the remaining arguments; the first accepts the stored concrete type and the rest accept the arguments in order |
| Diagnostics.Split | src/test/kotlin/happy/Loc.kt:5-7 | `split` on one character yields at least one piece, and no piece contains the delimiter |
| Diagnostics.SplitJoin | src/test/kotlin/happy/Loc.kt:5-7 | joining the pieces with the delimiter gives the text back |
| Diagnostics.SplitWithout | src/test/kotlin/happy/Loc.kt:5-7 | text without the delimiter is one piece |
| Diagnostics.SplitAfter | src/test/kotlin/happy/Loc.kt:5-7 | a delimiter-free piece, the delimiter and more text split into that piece followed by the pieces of the rest |
| Diagnostics.LocRoundTrip | src/test/kotlin/happy/Loc.kt:3-9 | parsing `Loc.toString()` gives the same range back when no field is negative, the fields read in order as start line, start position, end line, end position |
| Diagnostics.ParseLocRejects | src/test/kotlin/happy/Loc.kt:8 | a non-numeric field fails `toInt`; text without '-' fails the index into the halves |
| Diagnostics.MessageEndsWithRange | src/main/kotlin/happy/TypeError.kt:13-35 | every message other than an incompatibility ends with ` at ` and the range text |
| Diagnostics.MessageMissingOnlyForUnrenderedTypes | src/main/kotlin/happy/TypeError.kt:8-35 | every message is given except those embedding a type this model does not render |
| Diagnostics.UnknownIdentifierMessage | src/main/kotlin/happy/TypeError.kt:13-17 | the unknown identifier `x` at `1:2-3:4` reads `Unknown identifier x at 1:2-3:4` |
| FlatScopes.FindLast | src/main/kotlin/Scope.kt:18 | the found layer binds the name and no layer above it does; nothing is found exactly when no layer binds it |
| FlatScopes.Scope.constructor | src/main/kotlin/Scope.kt:4 | a new scope has exactly one empty layer |
| FlatScopes.Scope.Get | src/main/kotlin/Scope.kt:18-19 | the binding of the topmost layer holding the name; a name bound in no layer is an IllegalStateException |
| FlatScopes.Scope.Enter | src/main/kotlin/Scope.kt:6-8 | pushes one empty layer |
| FlatScopes.Scope.Leave | src/main/kotlin/Scope.kt:10-12 | pops the top layer; an empty stack fails with NoSuchElementException and is unchanged |
| FlatScopes.Scope.Set | src/main/kotlin/Scope.kt:14-16 | binds in the top layer only; the lower layers are unchanged |
| FlatScopes.SetThenGet | src/main/kotlin/Scope.kt:14-18 | after `set(id, v)`, `get(id)` finds `v` in the top layer and every other name resolves as before |
| FlatScopes.EnterLeaveRestores | src/main/kotlin/Scope.kt:6-12 | `enter` then `leave` restores the stack, and while the layer is pushed every name resolves as before |
| FlatScopes.ShadowingPicksTopmost | src/main/kotlin/Scope.kt:18 | a name bound in some layer is found, in that layer or a higher one |
| Scopes.Chain | src/main/kotlin/happy/Function.kt:14 | the layers a lookup visits start at the given layer and only go to older layers, so the walk up the parent links ends |
| Scopes.Owner | src/main/kotlin/happy/ast/expression/IdExpression.kt:14 | the layer that answers a lookup binds the name and is the given layer or an older one |
| Scopes.OwnerIsNearest | src/main/kotlin/happy/ast/expression/IdExpression.kt:14 | the answering layer is the first layer of the parent chain binding the name; none answers exactly when no layer of the chain binds it |
| Scopes.Visible | src/main/kotlin/happy/ast/expression/IdExpression.kt:8-14 | the environment seen from the top layer holds exactly the names a lookup finds, with the values it answers |
| Scopes.Bind | src/main/kotlin/happy/ast/ImportDeclaration.kt:24 | `layer.bindings[id] = v` changes that layer's bindings and nothing else: no other layer and no parent link |
| Scopes.BindThenLookup | src/main/kotlin/happy/ast/statement/VariableDeclaration.kt:37 | after binding a name in a layer, a lookup from that layer answers the new value |
| Scopes.BindKeepsOtherNames | src/main/kotlin/happy/ast/statement/VariableDeclaration.kt:37 | binding one name changes no lookup of any other name, from any layer |
| Scopes.BindAtOwner | src/main/kotlin/happy/ast/statement/VariableAssignment.kt:18 | rebinding a name in the layer that owns it keeps that owner and makes the lookup answer the new value |
| Scopes.OwnerIgnoresNewerLayers | src/main/kotlin/happy/ast/ImportDeclaration.kt:20 | creating layers changes no lookup from a layer that already existed |
| Scopes.FreshLayerVisible | src/main/kotlin/happy/ast/expression/ExpressionBlock.kt:22 | a new empty layer sees exactly what its parent sees, and nothing when it has no parent |
| Scopes.BindTopVisible | src/main/kotlin/happy/ast/statement/VariableDeclaration.kt:29 | `define` adds or replaces exactly one binding in what the top layer sees |
| Scopes.BindOwnerVisible | src/main/kotlin/happy/ast/statement/VariableAssignment.kt:18 | `assign` replaces exactly one binding in what the top layer sees |
| Scopes.Scope.constructor | src/main/kotlin/happy/Context.kt:6-7 | a new scope holds one empty parentless layer, on the stack |
| Scopes.Scope.Top | src/main/kotlin/happy/ast/FunctionDeclaration.kt:41 | `stack.last()` exists exactly when the stack is not empty, and is an existing layer |
| Scopes.Scope.Get | src/main/kotlin/happy/ast/expression/IdExpression.kt:8-14 | succeeds exactly when a layer on the top layer's chain binds the name, with the nearest binding; otherwise the unknown-name exception |
| Scopes.Scope.Enter | src/main/kotlin/happy/ast/expression/ExpressionBlock.kt:22 | pushes a new empty layer whose parent is the old top; what is visible does not change |
| Scopes.Scope.EnterWith | src/main/kotlin/happy/Function.kt:14 | pushes a new empty layer under the given parent; what is visible is what that parent sees |
| Scopes.Scope.NewLayer | src/main/kotlin/happy/ast/ImportDeclaration.kt:20 | `Layer()` creates a parentless layer off the stack; the stack and what is visible do not change |
| Scopes.Scope.Leave | src/main/kotlin/happy/ast/expression/ExpressionBlock.kt:24 | pops the top index and keeps every layer; an empty stack fails with NoSuchElementException and is unchanged |
| Scopes.Scope.Define | src/main/kotlin/happy/ast/statement/VariableDeclaration.kt:37 | binds in the top layer only, adding or replacing one visible binding; an empty stack fails and nothing changes |
| Scopes.Scope.SetIn | src/main/kotlin/happy/ast/ImportDeclaration.kt:24 | writes one binding into a layer held by reference |
| Scopes.Scope.Assign | src/main/kotlin/happy/ast/statement/VariableAssignment.kt:18 | rebinds the name in the layer that owns it, replacing one visible binding; an unbound name fails and nothing changes |
| Scopes.EnterLeaveRestores | src/main/kotlin/happy/ast/expression/ExpressionBlock.kt:22-24 | pushing a layer and popping it gives the stack back, and every lookup from the old top answers as before |
| Scopes.ShadowThenLeave | src/main/kotlin/happy/ast/expression/ExpressionBlock.kt:22-24 | a block's layer sees the enclosing bindings; a `define` in it shadows the name there and leaves the enclosing layer's answer unchanged |
| Scopes.CalleeSeesOnlyClosure | src/main/kotlin/happy/Function.kt:14-15 | a call's layer sees exactly what the declaration's captured layer sees, never the caller's locals |
| Scopes.ChainUnchangedLookup | src/main/kotlin/happy/ast/ImportDeclaration.kt:19-24 | a lookup depends only on the layers of its chain |
| Scopes.BindOffChainVisible | src/main/kotlin/happy/ast/ImportDeclaration.kt:24 | writing the importer's layer while the imported file's layer is on top changes nothing the imported file's scope sees |
| Scopes.FreshChainKeepsOlder | src/main/kotlin/happy/ast/ImportDeclaration.kt:8-15 | checking an imported file on a fresh parentless layer writes no layer that existed before |
| Context.Context.constructor | src/main/kotlin/happy/Context.kt:5-8 | no source files, no diagnostics, and each stack holding one empty layer |
| Context.Context.ResetContext | src/main/kotlin/happy/Context.kt:10-17 | source files and diagnostics are cleared and each stack holds only a new empty layer, so nothing bound before is visible |
| Context.FreshStackSeesNothing | src/main/kotlin/happy/Context.kt:12-15 | the layer a reset pushes sees no binding, whatever layers exist already |
| Context.Context.CheckType | src/main/kotlin/happy/TypeError.kt:43-51 | appends one `IncompatibleType` at the node's range exactly when the declared type does not accept the actual one in the typing scope; otherwise the diagnostics are unchanged |
| Context.Context.DefineFunctionType | src/main/kotlin/happy/Function.kt:63-71 | an unbound name gets a new overload set of this one variant in the top layer; a bound overload set gets the variant appended where it is bound; a binding that is not an overload set fails the cast |
| Context.Context.Get | src/main/kotlin/happy/ast/expression/IdExpression.kt:14 | the runtime lookup is the evaluator's `Runtime.Get` on the current state |
| Context.Context.Enter | src/main/kotlin/happy/ast/expression/ExpressionBlock.kt:22 | the new state is the evaluator's `Runtime.Enter` of the old one |
| Context.Context.EnterWith | src/main/kotlin/happy/Function.kt:14 | the new state is `Runtime.EnterWith` of the old one |
| Context.Context.NewLayer | src/main/kotlin/happy/ast/ImportDeclaration.kt:20 | the new state is `Runtime.NewLayer` of the old one, and the index is the new layer's |
| Context.Context.CaptureTop | src/main/kotlin/happy/ast/FunctionDeclaration.kt:41 | the declaration's function now holds the current top layer; nothing else changes |
| Context.Context.Leave | src/main/kotlin/happy/ast/expression/ExpressionBlock.kt:24 | answers and leaves the state `Runtime.Leave` gives |
| Context.Context.Define | src/main/kotlin/happy/ast/statement/VariableDeclaration.kt:37 | answers and leaves the state `Runtime.Define` gives |
| Context.Context.Assign | src/main/kotlin/happy/ast/statement/VariableAssignment.kt:18 | answers and leaves the state `Runtime.Assign` gives |
| Context.Context.SetIn | src/main/kotlin/happy/ast/ImportDeclaration.kt:24 | the new state is `Runtime.SetIn` of the old one |
| Context.Context.DefineFunction | src/main/kotlin/happy/Function.kt:73-81 | answers and leaves the state `Runtime.DefineFunction` gives: a new overload set for an unbound name, the variant appended for a bound one, a cast failure otherwise |
| Runtime.Get | src/main/kotlin/happy/ast/expression/IdExpression.kt:14 | a runtime lookup succeeds exactly for a visible name, with its visible value; otherwise the unknown-name exception |
| Runtime.Enter | src/main/kotlin/happy/ast/expression/ExpressionBlock.kt:22 | one index more on the stack, the old stack below it, and the same visible bindings |
| Runtime.EnterWith | src/main/kotlin/happy/Function.kt:14 | one index more on the stack; the visible bindings are exactly those of the given parent layer |
| Runtime.NewLayer | src/main/kotlin/happy/ast/ImportDeclaration.kt:20 | one parentless layer more in the arena; stack, captured layers and console are unchanged |
| Runtime.Leave | src/main/kotlin/happy/ast/expression/ExpressionBlock.kt:24 | succeeds exactly on a non-empty stack, popping its top and keeping every layer; otherwise NoSuchElementException |
| Runtime.Define | src/main/kotlin/happy/ast/statement/VariableDeclaration.kt:37 | succeeds exactly on a non-empty stack; only bindings change, and the visible environment gains or replaces exactly that one name |
| Runtime.Assign | src/main/kotlin/happy/ast/statement/VariableAssignment.kt:18 | succeeds exactly for a visible name; only bindings change, and exactly that one visible binding is replaced |
| Runtime.SetIn | src/main/kotlin/happy/ast/ImportDeclaration.kt:24 | only bindings change; what the written layer sees gains or replaces exactly that one name |
| Runtime.SetInOffView | src/main/kotlin/happy/ast/ImportDeclaration.kt:24 | writing a layer out of sight of the top one changes nothing `get` sees, keeps it out of sight, and changes only that layer's bindings |
| Runtime.DefineFunction | src/main/kotlin/happy/Function.kt:73-81 | an unbound name is defined as a one-variant overload set; a bound one succeeds exactly when it holds an overload set, which is replaced by the extended set |
| Runtime.RuntimeAddVariant | src/main/kotlin/happy/Function.kt:75-76 | succeeds exactly on an overload set, giving it with the variant appended last; anything else fails the cast |
| Annotations.ToType | src/main/kotlin/happy/ast/TypeAnnotation.kt:7-18 | resolving an annotation can fail only with the unknown-name exception |
| Annotations.ToTypeFails | src/main/kotlin/happy/ast/TypeAnnotation.kt:8-13 | `toType` fails exactly on an unbound name, or on an unbound generic argument of an enum that has a placeholder to replace |
| Annotations.ToTypePlain | src/main/kotlin/happy/ast/TypeAnnotation.kt:8-17 | without a generic argument, or for a type that is not an enum, the bound type comes back unchanged |
| Annotations.ToTypeSubstitutes | src/main/kotlin/happy/ast/TypeAnnotation.kt:10-15 | with a generic argument an enum keeps its name, and its members are its non-placeholder members plus the argument's type when there was a placeholder |
| Annotations.OptOfInteger | src/main/kotlin/happy/ast/TypeAnnotation.kt:10-15 | `Opt<Integer>` of `enum Opt<T> { T, 'None }` is the enum of Integer and `'None` |
| Annotations.FieldTypes | src/main/kotlin/happy/ast/DataTypeDeclaration.kt:12-21 | one field per annotated field, same names and order; each type is the resolved one or Nothing, and the diagnostics are those of `UndeclaredTypes` |
| Annotations.UndeclaredTypes | src/main/kotlin/happy/ast/DataTypeDeclaration.kt:17-18 | at most one diagnostic per field, each an `UndeclaredType` at the declaration's range |
| Annotations.FieldTypesAppend | src/main/kotlin/happy/ast/DataTypeDeclaration.kt:14-21 | one more field adds its field and its diagnostic at the end, as the loop over the fields produces them |
| Annotations.ResolvedFieldsRaiseNothing | src/main/kotlin/happy/ast/DataTypeDeclaration.kt:15-19 | a record whose field annotations all resolve raises no diagnostic |
| Annotations.UndeclaredFieldType | src/test/kotlin/happy/TypeCheckerTest.kt:228-229 | `data WrongData { oops: DoesNotExist }`: the field becomes Nothing with one `UndeclaredType` diagnostic |
| Annotations.SubtypeTypes | src/main/kotlin/happy/ast/EnumTypeDeclaration.kt:18-23 | a subtype named like the generic parameter is the placeholder, any other is its resolved type; the list fails exactly when some other subtype does not resolve |
| Annotations.EnumMembers | src/main/kotlin/happy/ast/EnumTypeDeclaration.kt:18-26 | the member set is exactly the subtype types and the symbol types |
| Annotations.Parameters | src/main/kotlin/happy/ast/InterfaceDeclaration.kt:18-20 | one parameter per argument, same name, with the resolved type; fails exactly when some annotation does not resolve |
| Annotations.SignatureOverloads | src/main/kotlin/happy/ast/InterfaceDeclaration.kt:17-25 | a signature requires a single bodiless variant under its name with the resolved parameter and return types |
| Annotations.InterfaceOverloads | src/main/kotlin/happy/ast/InterfaceDeclaration.kt:15-26 | the required sets are exactly those of the signatures, each once; fails exactly when some signature does not resolve |
| TypingRules.IdType | src/main/kotlin/happy/ast/expression/IdExpression.kt:7-12 | typing a name never throws; a bound name has its bound type and adds nothing, an unbound one types as Nothing and adds exactly one `UnknownIdentifier` |
| TypingRules.UnknownIdentifierIsNothing | src/main/kotlin/happy/ast/expression/IdExpression.kt:9-11 | an unbound name types as Nothing with one `UnknownIdentifier` at its range |
| TypingRules.FieldNamed | src/main/kotlin/happy/ast/expression/DotCall.kt:11 | a record field lookup finds nothing exactly when no field has the name, and otherwise the type of the first field so named |
| TypingRules.Incompatibility | src/main/kotlin/happy/TypeError.kt:43-51 | a diagnostic, when there is one, is exactly one `IncompatibleType` for the two types at the node |
| TypingRules.IncompatibilityDecides | src/main/kotlin/happy/TypeError.kt:43-51 | no diagnostic exactly when the declared type accepts the actual one, a diagnostic exactly when it does not, and a failure exactly when deciding fails |
| TypingRules.UnlistedSymbolIsIncompatible | src/test/kotlin/happy/TypeCheckerTest.kt:104-118 | `enum Choice { 'A, Integer }` accepts `'A` and an Integer and reports `'B` |
| TypingRules.BracketIsTransparent | src/main/kotlin/happy/ast/expression/BracketExpression.kt:7 | a bracketed expression types as its inner expression |
| TypingRules.NegationIsBoolean | src/main/kotlin/happy/ast/expression/Negation.kt:8 | a negation is Boolean and its operand is not typed at all |
| TypingRules.AdditionHasLeftType | src/main/kotlin/happy/ast/expression/math/Addition.kt:11-15 | an addition has its left operand's type whatever the right one's; the left operand is typed twice, so its diagnostics appear twice, then the right one's |
| TypingRules.IntegerPlusString | src/main/kotlin/happy/ast/expression/math/Addition.kt:11-15 | `1 + "a"` types as Integer and reports nothing |
| TypingRules.IfIsUnion | src/main/kotlin/happy/ast/expression/IfExpression.kt:14-18 | an `if` that types has the union of its branch types, after the condition's, then-branch's and else-branch's diagnostics in that order |
| TypingRules.IfOfIntegers | src/test/kotlin/happy/TypeCheckerTest.kt:123 | `if … { 2 } else { 1 }` types as Integer (the condition here is `true`) |
| TypingRules.IfOfIntegerAndString | src/test/kotlin/happy/TypeCheckerTest.kt:124 | `if … { 2 } else { "text!" }` types as the enum `Inline` of Integer and String (the condition here is `true`) |
| TypingRules.BlockOfNoStatements | src/main/kotlin/happy/ast/expression/ExpressionBlock.kt:15-19 | a block without statements types as its result expression |
| TypingRules.CaseTypes | src/main/kotlin/happy/ast/expression/MatchExpression.kt:16-20 | when the cases type, the set collected holds exactly the result types of the cases |
| TypingRules.MatchIsUnion | src/main/kotlin/happy/ast/expression/MatchExpression.kt:14-23 | a match that types has the union of every case's result type and the `else` type |
| TypingRules.DotCallOnField | src/main/kotlin/happy/ast/expression/DotCall.kt:9-12 | a field access on a record declaring the field has the field's type |
| TypingRules.DotCallOtherwise | src/main/kotlin/happy/ast/expression/DotCall.kt:15-26 | otherwise an unbound name adds one `UndeclaredField` and types as Nothing, a function name gives the function with the target as first argument, and any other binding throws `Error` |
| TypingRules.CallTarget | src/main/kotlin/happy/ast/expression/FunctionCall.kt:16-19 | a dot call's function is looked up again by name, unguarded, with the receiver as leading argument; any other target is its own callee with no leading argument |
| TypingRules.ParamChecksIff | src/main/kotlin/happy/ast/expression/FunctionCall.kt:32-36 | with enough arguments, the checks of the only variant add nothing exactly when every parameter accepts its argument, and each diagnostic is an `IncompatibleType` of one rejecting parameter |
| TypingRules.ParamChecksTooFew | src/main/kotlin/happy/ast/expression/FunctionCall.kt:32-34 | fewer arguments than parameters always throws |
| TypingRules.WrapFlagsMembers | src/main/kotlin/happy/ast/expression/FunctionCall.kt:48-55 | an argument expression is marked for wrapping exactly when some argument it computes goes to an interface parameter of another type, and it is marked with an interface |
| TypingRules.CallOfNonFunction | src/main/kotlin/happy/ast/expression/FunctionCall.kt:21-24 | a call whose target is not a function types as Nothing, adds nothing of its own and types no argument |
| TypingRules.DotCallReceiverFirst | src/main/kotlin/happy/ast/expression/FunctionCall.kt:16-26 | a dot call's receiver is the first argument of the resolved call, followed by the explicit arguments in order |
| TypingRules.SeveralVariantsResolveUniquely | src/main/kotlin/happy/ast/expression/FunctionCall.kt:41-44 | with several variants the call resolves to the one `getVariant` picks and adds no diagnostic |
| TypingRules.AddNotANumber | src/test/kotlin/happy/TypeCheckerTest.kt:80-88 | `add(5, "not a number")` against `add(a: Integer, b: Integer): Integer` types as Integer and reports the string argument |
| TypingRules.AssignmentCompared | src/main/kotlin/happy/ast/statement/VariableAssignment.kt:11-15 | an assignment to a bound name keeps the bindings and adds the value's diagnostics and then the comparison's |
| TypingRules.UninitializedFieldsIff | src/main/kotlin/happy/ast/expression/ConstructorCall.kt:20-24 | a field is reported uninitialized exactly when the record declares it and the call does not assign it |
| TypingRules.UnknownTypeConstructsEmpty | src/main/kotlin/happy/ast/expression/ConstructorCall.kt:13-18 | an unknown type name adds `UndeclaredType` and the call types as an empty record of that name, whatever the assignments |
| TypingRules.ConstructedIsDeclared | src/main/kotlin/happy/ast/expression/ConstructorCall.kt:12-34 | a constructor call that types has the record type its name is bound to |
| TypingRules.UndeclaredFieldSkipsValue | src/main/kotlin/happy/ast/expression/ConstructorCall.kt:25-29 | an assignment to an undeclared field adds one `UndeclaredField` and its value is never typed |
| TypingRules.MissingAgeField | src/test/kotlin/happy/TypeCheckerTest.kt:221-222 | `MyData { name: "Luna" }` reports `age` uninitialized and types as `MyData` |
| DeclarationRules.FunctionTypeDefined | src/main/kotlin/happy/Function.kt:63-71 | fails the cast exactly when the name is bound to something other than an overload set; otherwise the name gets its old variants plus the new one last, and every other binding is kept |
| DeclarationRules.DefinedVariantsPersist | src/main/kotlin/happy/Function.kt:63-71 | after defining a sequence of variants, every one of them is among the variants of its name |
| DeclarationRules.Registered | src/main/kotlin/happy/ast/SourceFile.kt:15 | registering types binds exactly the old names plus each type's name |
| DeclarationRules.RegisteredFromNothing | src/main/kotlin/happy/ast/SourceFile.kt:15 | from nothing, registration binds exactly Any, Integer, String and Boolean |
| DeclarationRules.BuiltInBindings | src/main/kotlin/happy/ast/SourceFile.kt:15-16 | a file checked from nothing sees exactly the four built-in types and `printLine` and `readLine`, each a one-variant overload set |
| DeclarationRules.InterfaceStubsSingle | src/main/kotlin/happy/ast/InterfaceDeclaration.kt:31-35 | every completed set holds exactly one stub named like the set, so `single()` never throws |
| DeclarationRules.InterfaceStubsCallable | src/main/kotlin/happy/ast/InterfaceDeclaration.kt:14-35 | after declaring an interface, each stub takes the interface as its `self` parameter and is a variant of the name it requires |
| DeclarationRules.DataTypeBindsName | src/main/kotlin/happy/ast/DataTypeDeclaration.kt:11-24 | a record declaration always succeeds, binds its name to a record with one field per annotation, adds no diagnostic exactly when every annotation resolves, and keeps every other binding |
| DeclarationRules.UnresolvedFieldRaises | src/main/kotlin/happy/ast/DataTypeDeclaration.kt:17-18 | one unresolvable field annotation is enough for a diagnostic |
| DeclarationRules.DeclaredFunction | src/main/kotlin/happy/ast/FunctionDeclaration.kt:16-20 | the declared function is a custom function of the signature's name, and declaring succeeds exactly when every parameter annotation and the return annotation resolve |
| DeclarationRules.OverloadsInOrder | src/main/kotlin/happy/ast/SourceFile.kt:20 | two declarations of one unbound name become its two variants, in declaration order |
| DeclarationRules.ParamsBound | src/main/kotlin/happy/ast/FunctionDeclaration.kt:26-28 | binding the parameters adds exactly their names to the bindings |
| DeclarationRules.ReturnMismatchReported | src/main/kotlin/happy/ast/FunctionDeclaration.kt:33-35 | a return expression the declared return type rejects adds one `IncompatibleType` at the declaration, after the expression's own diagnostics |
| DeclarationRules.Exported | src/main/kotlin/happy/ast/ImportDeclaration.kt:12-14 | fails exactly when a listed name is unbound in the imported file, with that unknown name; otherwise adds exactly the listed names, bound as the imported file binds them, and keeps the rest |
| DeclarationRules.ImportAddsOnlyListed | src/main/kotlin/happy/ast/ImportDeclaration.kt:7-16 | an import adds exactly the names it lists and changes no other binding: imports are neither wildcard nor transitive |
| DeclarationRules.ImportOfMissingFile | src/main/kotlin/happy/ast/ImportDeclaration.kt:11 | importing a path no file has fails the `!!`, whatever the fuel |
| DeclarationRules.SelfImportNeverEnds | src/main/kotlin/happy/ast/ImportDeclaration.kt:11 | a file importing itself never finishes checking: it runs out of fuel whatever the fuel |
| Checker.Done | src/main/kotlin/happy/ast/statement/Statement.kt:6 | a statement's outcome fails exactly when the rule's does, with the same exception |
| Checker.TypeOf | src/main/kotlin/happy/ast/expression/Expression.kt:7 | `type()` of any expression answers and reports exactly what the typing rule gives for the bindings visible at the start, and on success leaves both stacks and every typing binding as they were |
| Checker.TypeOfId | src/main/kotlin/happy/ast/expression/IdExpression.kt:7-12 | the bound type, or Nothing with one `UnknownIdentifier` appended, as `IdType` gives |
| Checker.TypeOfUnaryMinus | src/main/kotlin/happy/ast/expression/math/UnaryMinus.kt:9-11 | answers and reports exactly what the typing rule gives for the bindings visible at the start, and on success leaves both stacks and every typing binding as they were |
| Checker.TypeOfAddition | src/main/kotlin/happy/ast/expression/math/Addition.kt:11-15 | answers and reports exactly what the typing rule gives for the bindings visible at the start, and on success leaves both stacks and every typing binding as they were |
| Checker.TypeOfOperator | src/main/kotlin/happy/ast/expression/math/Subtraction.kt:9-12 | every other operator: answers and reports exactly what the typing rule gives for the bindings visible at the start, and on success leaves both stacks and every typing binding as they were |
| Checker.TypeOfIf | src/main/kotlin/happy/ast/expression/IfExpression.kt:14-18 | answers and reports exactly what the typing rule gives for the bindings visible at the start, and on success leaves both stacks and every typing binding as they were |
| Checker.TypeOfMatch | src/main/kotlin/happy/ast/expression/MatchExpression.kt:14-23 | answers and reports exactly what the typing rule gives for the bindings visible at the start, and on success leaves both stacks and every typing binding as they were |
| Checker.TypeOfCases | src/main/kotlin/happy/ast/expression/MatchExpression.kt:16-20 | the loop over the cases collects what `TypedCases` gives and appends its diagnostics |
| Checker.TypeOfCase | src/main/kotlin/happy/ast/expression/MatchExpression.kt:18-19 | one case: the pattern's typing then the result's, each as the typing rule gives it, the pattern's type dropped; on success both stacks and every typing binding are kept |
| Checker.TypeOfBlock | src/main/kotlin/happy/ast/expression/ExpressionBlock.kt:15-19 | answers and reports exactly what the typing rule gives for the bindings visible at the start, and on success leaves both stacks and every typing binding as they were: the pushed typing layer is popped again |
| Checker.TypeOfDotCall | src/main/kotlin/happy/ast/expression/DotCall.kt:7-27 | answers and reports exactly what the typing rule gives for the bindings visible at the start, and on success leaves both stacks and every typing binding as they were |
| Checker.MemberOf | src/main/kotlin/happy/ast/expression/DotCall.kt:9-26 | gives and reports what `DotCallType` gives for the typed target |
| Checker.TypeOfCall | src/main/kotlin/happy/ast/expression/FunctionCall.kt:12-46 | answers and reports exactly what the typing rule gives for the bindings visible at the start, and on success leaves both stacks and every typing binding as they were; a successful call that resolves to a variant leaves on its node that variant, the expressions of all its arguments (a dot call's receiver first), and a wrapping mark for each argument passed to an interface parameter of another type |
| Checker.ApplyCall | src/main/kotlin/happy/ast/expression/FunctionCall.kt:21-45 | gives and reports what `ApplyRule` gives for the callee and the typed arguments; on success with an overload set as callee, the node holds the variant `ApplyRule` chose, the argument expressions, and a wrapping mark for each argument passed to an interface parameter of another type |
| Checker.TypeOfArgs | src/main/kotlin/happy/ast/expression/FunctionCall.kt:26 | the loop types the explicit arguments in order, as `TypedArgs` gives |
| Checker.ResolveCall | src/main/kotlin/happy/ast/expression/FunctionCall.kt:28-45 | gives and reports what `Resolve` gives; on success records the chosen variant and the argument expressions on the node, the variant has at least as many parameters as there are arguments, and the node's wrapping marks are those `WrapFlags` adds for the variant's parameters, every other node's marks unchanged |
| Checker.CheckParams | src/main/kotlin/happy/ast/expression/FunctionCall.kt:32-36 | the loop over the parameters gives and reports what `ParamChecks` gives |
| Checker.PopulateContext | src/main/kotlin/happy/ast/expression/FunctionCall.kt:48-59 | throws exactly when there are more arguments than parameters; otherwise marks exactly the arguments passed to an interface parameter of another type, and records the variant and the argument expressions on the node |
| Checker.TypeOfConstructorCall | src/main/kotlin/happy/ast/expression/ConstructorCall.kt:12-35 | answers and reports exactly what the typing rule gives for the bindings visible at the start, and on success leaves both stacks and every typing binding as they were; a type name that is not bound stores nothing on any node |
| Checker.ReportUninitialized | src/main/kotlin/happy/ast/expression/ConstructorCall.kt:20-24 | appends exactly the `UninitializedField` diagnostics `UninitializedFields` gives, in field order |
| Checker.CheckAssignments | src/main/kotlin/happy/ast/expression/ConstructorCall.kt:25-33 | the loop over the assignments gives and reports what `AssignmentChecks` gives |
| Checker.TypeCheck | src/main/kotlin/happy/ast/statement/Statement.kt:6 | `typeCheck()` of any statement ends as the statement rule says: the same exception, the rule's diagnostics appended, and on success the bindings the rule gives, written only in the top typing layer |
| Checker.TypeCheckAll | src/main/kotlin/happy/ast/expression/ExpressionBlock.kt:17 | `statements.forEach(Statement::typeCheck)` ends as the statement rule says: the same exception, the rule's diagnostics appended, and on success the bindings the rule gives, written only in the top typing layer, each statement against the bindings the previous ones left |
| Checker.TypeCheckExpression | src/main/kotlin/happy/ast/statement/ExpressionStatement.kt:8-10 | ends as the statement rule says: the same exception, the rule's diagnostics appended, and on success the bindings the rule gives, written only in the top typing layer |
| Checker.TypeCheckDeclaration | src/main/kotlin/happy/ast/statement/VariableDeclaration.kt:14-34 | ends as the statement rule says: the same exception, the rule's diagnostics appended, and on success the bindings the rule gives, written only in the top typing layer |
| Checker.DeclareInitialized | src/main/kotlin/happy/ast/statement/VariableDeclaration.kt:27-33 | a declaration with an initializer follows `InitializedRule`: typed, bound, then compared |
| Checker.BindInitialized | src/main/kotlin/happy/ast/statement/VariableDeclaration.kt:29-33 | once the initializer's type is known: the name is bound to the annotated type if there is one and else to that type, in the top layer only, and the annotated type is then checked against it, as `InitializedRule` gives |
| Checker.TypeCheckAssignment | src/main/kotlin/happy/ast/statement/VariableAssignment.kt:11-15 | ends as the statement rule says: the same exception, the rule's diagnostics appended, and on success the bindings the rule gives, written only in the top typing layer |
| Checker.TypeCheckFor | src/main/kotlin/happy/ast/statement/ForLoop.kt:15-20 | ends as the statement rule says: the same exception, the rule's diagnostics appended, and on success the bindings the rule gives, written only in the top typing layer; the iterator's layer is popped, so no binding of the loop survives |
| Checker.TypeCheckWhile | src/main/kotlin/happy/ast/statement/WhileLoop.kt:9-15 | ends as the statement rule says: the same exception, the rule's diagnostics appended, and on success the bindings the rule gives, written only in the top typing layer; the body's bindings land in the enclosing typing layer |
| Declarations.DefineVariant | src/main/kotlin/happy/Function.kt:63-71 | `defineFunctionType` on the context ends as `FunctionTypeDefined` gives for the visible bindings: the same exception, or the variant added to the name's overloads; on success only layers on the chain of the top typing layer were written |
| Declarations.DefineFunctionTypes | src/main/kotlin/happy/ast/SourceFile.kt:15 | `defineFunctionType` for each function in order ends as `FunctionTypesDefined` gives; on success only layers on the chain of the top typing layer were written |
| Declarations.DeclareType | src/main/kotlin/happy/ast/SourceFile.kt:18 | `declareType` of any type declaration ends as `TypeDeclared` gives, with exactly its diagnostics appended; on success only layers on the chain of the top typing layer were written |
| Declarations.DeclareDataType | src/main/kotlin/happy/ast/DataTypeDeclaration.kt:11-24 | never throws; appends exactly the `UndeclaredType` diagnostics of `FieldTypes` and binds the record type with its fields' types |
| Declarations.DefineInChain | src/main/kotlin/happy/ast/DataTypeDeclaration.kt:23 | `typingScope.define` binds the name in the top layer: the visible bindings gain exactly that name |
| Declarations.ResolveFields | src/main/kotlin/happy/ast/DataTypeDeclaration.kt:12-21 | the loop over the fields gives the field types and appends the diagnostics `FieldTypes` gives |
| Declarations.DeclareEnum | src/main/kotlin/happy/ast/EnumTypeDeclaration.kt:17-27 | ends as `EnumDeclared` gives: the enum bound with its member set, or the exception of an undeclared member type |
| Declarations.DeclareInterface | src/main/kotlin/happy/ast/InterfaceDeclaration.kt:14-36 | ends as `InterfaceDeclared` gives; on success every complete function has a single variant, and the declaration's list gains exactly those stubs, in order |
| Declarations.DefineStubs | src/main/kotlin/happy/ast/InterfaceDeclaration.kt:31-35 | each stub is defined as a variant of its name and appended to the declaration's list; the bindings are what `FunctionTypesDefined` gives |
| Declarations.StubAppended | src/main/kotlin/happy/ast/InterfaceDeclaration.kt:34 | adding one stub to the list after the first `i` gives the list of the first `i + 1` |
| Declarations.DeclareFunction | src/main/kotlin/happy/ast/FunctionDeclaration.kt:16-21 | ends as `FunctionDeclared` gives; when the annotations resolve, the built function is kept on the declaration |
| Declarations.DefineLocal | src/main/kotlin/happy/ast/FunctionDeclaration.kt:27 | a parameter is bound in the body's layer: the visible bindings gain exactly that name |
| Declarations.DefineParams | src/main/kotlin/happy/ast/FunctionDeclaration.kt:26-28 | the parameters bound in order end as `ParamsBound` gives: the exception of an undeclared type, or the bindings extended by each parameter |
| Declarations.CheckBody | src/main/kotlin/happy/ast/FunctionDeclaration.kt:23-38 | `typeCheckBody` ends as `BodyChecked` gives, with exactly its diagnostics appended; on success the body's layer is popped and the visible bindings are as before |
| Declarations.CheckInside | src/main/kotlin/happy/ast/FunctionDeclaration.kt:26-35 | the parameters, statements and return check inside the body's layer end as `BodyChecked` gives |
| Declarations.CheckReturn | src/main/kotlin/happy/ast/FunctionDeclaration.kt:33-35 | the declared return type is compared with the return expression's type as `ReturnChecked` gives; on success the bindings are as before |
| Files.TypeCheckFile | src/main/kotlin/happy/ast/SourceFile.kt:14-24 | `SourceFile.typeCheck` ends as `FileChecked` gives, with exactly its diagnostics appended; on success the visible bindings are the rule's and both stacks are as before |
| Files.CheckFile | src/main/kotlin/happy/ast/SourceFile.kt:14-24 | the same, for a file checked below an importer: on success only layers on the chain of the top typing layer were written |
| Files.RegisterTypes | src/main/kotlin/happy/ast/SourceFile.kt:15 | the built-in types bound in turn, each under its name, give `Registered` |
| Files.RegisterBuiltIns | src/main/kotlin/happy/ast/SourceFile.kt:15-16 | the built-in types, then the built-in function variants, end as `WithBuiltIns` gives |
| Files.ExportId | src/main/kotlin/happy/ast/ImportDeclaration.kt:13 | fails with `UnknownName` exactly when the imported file's scope does not see the name; otherwise the importer's layer binds it to what that scope sees |
| Files.ExportIds | src/main/kotlin/happy/ast/ImportDeclaration.kt:12-14 | the loop over the listed names ends as `Exported` gives |
| Files.CheckImport | src/main/kotlin/happy/ast/ImportDeclaration.kt:7-16 | `ImportDeclaration.typeCheck` ends as `ImportChecked` gives, with exactly its diagnostics appended; on success only the importer's chain was written |
| Files.ImportFile | src/main/kotlin/happy/ast/ImportDeclaration.kt:10-15 | the imported file checked on its pushed layer, then the names exported, end as `Exporting` gives |
| Files.ExportAndLeave | src/main/kotlin/happy/ast/ImportDeclaration.kt:12-15 | the names copied into the importer's layer and the pushed layers popped: the stack is the importer's again |
| Files.CheckImports | src/main/kotlin/happy/ast/SourceFile.kt:18 | the imports checked in order end as `ImportsChecked` gives |
| Files.CheckNextImport | src/main/kotlin/happy/ast/SourceFile.kt:18 | one import after those before it extends the outcome of the prefix by one |
| Files.CheckDeclared | src/main/kotlin/happy/ast/SourceFile.kt:19-23 | the type declarations, function declarations, statements and bodies end as `Declared` gives |
| Files.DeclareTypes | src/main/kotlin/happy/ast/SourceFile.kt:19 | `types.forEach(declareType)` ends as `TypesDeclared` gives |
| Files.DeclareFunctions | src/main/kotlin/happy/ast/SourceFile.kt:20 | `functions.forEach(declareFunction)` ends as `FunctionsDeclared` gives |
| Files.CheckStatements | src/main/kotlin/happy/ast/SourceFile.kt:21-23 | the top-level statements, then every function body, end as `Checks` gives |
| Files.CheckAllSince | src/main/kotlin/happy/ast/SourceFile.kt:21 | the top-level statements end as `CheckedAll` gives |
| Files.CheckBodySince | src/main/kotlin/happy/ast/SourceFile.kt:23 | one body ends as `BodyChecked` gives, and its layer is popped |
| Files.CheckBodies | src/main/kotlin/happy/ast/SourceFile.kt:23 | every body in order ends as `BodiesChecked` gives |
| Semantics.Stopped | src/main/kotlin/happy/ast/AstNode.kt:8 | an exception is carried over unchanged, with the machine it found |
| Semantics.Popped | src/main/kotlin/happy/ast/expression/ExpressionBlock.kt:24 | popping after a block, loop or call succeeds exactly when the body did and the stack was not empty; then the value is kept and the stack loses its top |
| Semantics.ParamTypes | src/main/kotlin/happy/ast/expression/FunctionCall.kt:82 | the parameter types, one per parameter and in order |
| Semantics.IntOperator | src/main/kotlin/happy/ast/expression/math/Mod.kt:16 | `%` is Kotlin's remainder, with division by zero an exception; the other integer operators never throw |
| Semantics.Eval | src/main/kotlin/happy/ast/AstNode.kt:8 | `eval()` of any expression keeps the machine valid and every layer it had, and on success leaves the runtime stack as it found it |
| Semantics.EvalNode | src/main/kotlin/happy/ast/AstNode.kt:8 | the dispatch over the node kinds keeps the machine valid and every layer it had, and on success leaves the runtime stack as it found it |
| Semantics.EvalNegation | src/main/kotlin/happy/ast/expression/Negation.kt:10 | keeps the machine valid and every layer it had, and on success leaves the runtime stack as it found it |
| Semantics.EvalUnaryMinus | src/main/kotlin/happy/ast/expression/math/UnaryMinus.kt:13 | keeps the machine valid and every layer it had, and on success leaves the runtime stack as it found it |
| Semantics.EvalInts | src/main/kotlin/happy/ast/expression/math/Subtraction.kt:16 | both operands evaluated left to right as integers; keeps the machine valid and every layer it had, and on success leaves the runtime stack as it found it |
| Semantics.EvalAddition | src/main/kotlin/happy/ast/expression/math/Addition.kt:17-20 | keeps the machine valid and every layer it had, and on success leaves the runtime stack as it found it |
| Semantics.EvalOperator | src/main/kotlin/happy/ast/expression/math/Mod.kt:14-16 | subtraction, multiplication, remainder and the comparisons keeps the machine valid and every layer it had, and on success leaves the runtime stack as it found it |
| Semantics.EvalEqual | src/main/kotlin/happy/ast/expression/comparison/Equal.kt:14 | keeps the machine valid and every layer it had, and on success leaves the runtime stack as it found it |
| Semantics.EvalIf | src/main/kotlin/happy/ast/expression/IfExpression.kt:20-24 | keeps the machine valid and every layer it had, and on success leaves the runtime stack as it found it |
| Semantics.EvalMatch | src/main/kotlin/happy/ast/expression/MatchExpression.kt:25-33 | keeps the machine valid and every layer it had, and on success leaves the runtime stack as it found it |
| Semantics.EvalCases | src/main/kotlin/happy/ast/expression/MatchExpression.kt:27-32 | the cases tried in order keeps the machine valid and every layer it had, and on success leaves the runtime stack as it found it |
| Semantics.EvalBlock | src/main/kotlin/happy/ast/expression/ExpressionBlock.kt:21-25 | keeps the machine valid and every layer it had, and on success leaves the runtime stack as it found it: the block's layer is popped |
| Semantics.EvalDotCall | src/main/kotlin/happy/ast/expression/DotCall.kt:29-31 | keeps the machine valid and every layer it had, and on success leaves the runtime stack as it found it |
| Semantics.EvalConstructorCall | src/main/kotlin/happy/ast/expression/ConstructorCall.kt:37 | keeps the machine valid and every layer it had, and on success leaves the runtime stack as it found it |
| Semantics.EvalFields | src/main/kotlin/happy/ast/expression/ConstructorCall.kt:37 | keeps the machine valid and every layer it had, and on success leaves the runtime stack as it found it; the record's fields are exactly the assigned names |
| Semantics.EvalCall | src/main/kotlin/happy/ast/expression/FunctionCall.kt:61-75 | keeps the machine valid and every layer it had, and on success leaves the runtime stack as it found it |
| Semantics.EvalArgs | src/main/kotlin/happy/ast/expression/FunctionCall.kt:62-72 | the argument values keep those already computed and add exactly one per argument expression; keeps the machine valid and every layer it had, and on success leaves the runtime stack as it found it |
| Semantics.Invoke | src/main/kotlin/happy/Function.kt:13-19 | `invoke` of a declared function, an interface stub or a built-in keeps the machine valid and every layer it had, and on success leaves the runtime stack as it found it: the call's layer is popped |
| Semantics.BindParams | src/main/kotlin/happy/Function.kt:15 | fails exactly when an argument is missing or there is no layer to bind in; otherwise only bindings change |
| Semantics.ToIIO | src/main/kotlin/happy/ast/expression/FunctionCall.kt:77-87 | on success the argument is a record, wrapped with its own type as the concrete type |
| Semantics.StaticVariants | src/main/kotlin/happy/ast/expression/FunctionCall.kt:82 | on success one variant per stub, and none of them a stub |
| Semantics.StaticVariantNotStub | src/main/kotlin/happy/Function.kt:30-32 | `getStaticVariant` never picks an interface stub |
| Semantics.Named | src/main/kotlin/happy/ast/expression/FunctionCall.kt:83 | exactly the functions of that name, in order |
| Semantics.GroupByName | src/main/kotlin/happy/ast/expression/FunctionCall.kt:83-85 | one overload set per name that occurs, holding exactly the functions of that name |
| Semantics.Exec | src/main/kotlin/happy/ast/statement/Statement.kt:7 | `eval()` of any statement keeps the machine valid and every layer it had, and on success leaves the runtime stack as it found it |
| Semantics.ExecAll | src/main/kotlin/happy/ast/SourceFile.kt:31 | the statements in order keeps the machine valid and every layer it had, and on success leaves the runtime stack as it found it |
| Semantics.ForFrom | src/main/kotlin/happy/ast/statement/ForLoop.kt:22-29 | the passes from `i` to the end of the range keeps the machine valid and every layer it had, and on success leaves the runtime stack as it found it |
| Semantics.ForPass | src/main/kotlin/happy/ast/statement/ForLoop.kt:24-27 | one pass, with the iterator bound in the loop's layer, keeps the machine valid and every layer it had, and on success leaves the runtime stack as it found it |
| Semantics.WhileFrom | src/main/kotlin/happy/ast/statement/WhileLoop.kt:17-21 | the loop from the current state keeps the machine valid and every layer it had, and on success leaves the runtime stack as it found it |
| Semantics.DefineAll | src/main/kotlin/happy/ast/SourceFile.kt:27 | the built-ins defined in turn leave a valid machine where only bindings changed |
| Semantics.DefineStubs | src/main/kotlin/happy/ast/InterfaceDeclaration.kt:38-44 | the stubs defined in turn leave a valid machine where only bindings changed |
| Semantics.EvalTypes | src/main/kotlin/happy/ast/SourceFile.kt:29 | the type declarations leave a valid machine where only bindings changed |
| Semantics.EvalFunctionDeclaration | src/main/kotlin/happy/ast/FunctionDeclaration.kt:40-43 | on success the stack was not empty and the function captured its top layer; the stack and layer count are kept |
| Semantics.EvalFunctions | src/main/kotlin/happy/ast/SourceFile.kt:30 | the function declarations keep the stack and the layer count |
| Semantics.ExportValues | src/main/kotlin/happy/ast/ImportDeclaration.kt:23-25 | copying the listed names leaves a valid machine where only bindings changed; it fails with `UnknownName` on a listed name, and when the written layer is out of sight it fails exactly when some listed name is not visible, naming one that is not, and on success adds exactly the listed names, with the values seen, to that layer's bindings |
| Semantics.EvalFile | src/main/kotlin/happy/ast/SourceFile.kt:26-33 | `SourceFile.eval()` keeps the machine valid and every layer it had, and on success leaves the runtime stack as it found it |
| Semantics.EvalImports | src/main/kotlin/happy/ast/SourceFile.kt:28 | the imports in order keeps the machine valid and every layer it had, and on success leaves the runtime stack as it found it |
| Semantics.EvalImport | src/main/kotlin/happy/ast/ImportDeclaration.kt:18-27 | keeps the machine valid and every layer it had, and on success leaves the runtime stack as it found it: the imported file's layer is popped |
| Semantics.ImportPath | src/main/kotlin/happy/ast/ImportDeclaration.kt:22 | on success the pushed layer is popped again |
| Semantics.ImportFile | src/main/kotlin/happy/ast/ImportDeclaration.kt:22-26 | on success the pushed layer is popped again |
| Evaluator.EnvOf | src/main/kotlin/happy/Context.kt:6 | the context's runtime scope sees what the machine's environment holds |
| Evaluator.EvalExpr | src/main/kotlin/happy/ast/AstNode.kt:8 | `eval()` of any expression gives the outcome the evaluation rule gives for the state it starts from and, on success, leaves exactly the state the rule gives |
| Evaluator.EvalLiteral | src/main/kotlin/happy/ast/expression/literal/IntLiteral.kt:11 | a literal gives the outcome the evaluation rule gives for the state it starts from and, on success, leaves exactly the state the rule gives |
| Evaluator.EvalDelegate | src/main/kotlin/happy/ast/expression/BracketExpression.kt:9 | brackets, type casts and identifiers gives the outcome the evaluation rule gives for the state it starts from and, on success, leaves exactly the state the rule gives |
| Evaluator.EvalOperation | src/main/kotlin/happy/ast/expression/math/Mod.kt:14 | the operators gives the outcome the evaluation rule gives for the state it starts from and, on success, leaves exactly the state the rule gives |
| Evaluator.EvalCompound | src/main/kotlin/happy/ast/expression/IfExpression.kt:20-24 | the compound expressions gives the outcome the evaluation rule gives for the state it starts from and, on success, leaves exactly the state the rule gives |
| Evaluator.EvalNegation | src/main/kotlin/happy/ast/expression/Negation.kt:10 | gives the outcome the evaluation rule gives for the state it starts from and, on success, leaves exactly the state the rule gives |
| Evaluator.EvalUnaryMinus | src/main/kotlin/happy/ast/expression/math/UnaryMinus.kt:13 | gives the outcome the evaluation rule gives for the state it starts from and, on success, leaves exactly the state the rule gives |
| Evaluator.EvalInts | src/main/kotlin/happy/ast/expression/math/Subtraction.kt:16 | gives the outcome the evaluation rule gives for the state it starts from and, on success, leaves exactly the state the rule gives |
| Evaluator.EvalAddition | src/main/kotlin/happy/ast/expression/math/Addition.kt:17-20 | gives the outcome the evaluation rule gives for the state it starts from and, on success, leaves exactly the state the rule gives |
| Evaluator.EvalOperator | src/main/kotlin/happy/ast/expression/math/Subtraction.kt:14-16 | gives the outcome the evaluation rule gives for the state it starts from and, on success, leaves exactly the state the rule gives |
| Evaluator.EvalEqual | src/main/kotlin/happy/ast/expression/comparison/Equal.kt:14 | gives the outcome the evaluation rule gives for the state it starts from and, on success, leaves exactly the state the rule gives |
| Evaluator.EvalIf | src/main/kotlin/happy/ast/expression/IfExpression.kt:20-24 | gives the outcome the evaluation rule gives for the state it starts from and, on success, leaves exactly the state the rule gives |
| Evaluator.EvalMatch | src/main/kotlin/happy/ast/expression/MatchExpression.kt:25-33 | gives the outcome the evaluation rule gives for the state it starts from and, on success, leaves exactly the state the rule gives |
| Evaluator.EvalCases | src/main/kotlin/happy/ast/expression/MatchExpression.kt:27-32 | the loop over the cases gives the outcome the evaluation rule gives for the state it starts from and, on success, leaves exactly the state the rule gives |
| Evaluator.EvalBlock | src/main/kotlin/happy/ast/expression/ExpressionBlock.kt:21-25 | gives the outcome the evaluation rule gives for the state it starts from and, on success, leaves exactly the state the rule gives |
| Evaluator.EvalDotCall | src/main/kotlin/happy/ast/expression/DotCall.kt:29-31 | gives the outcome the evaluation rule gives for the state it starts from and, on success, leaves exactly the state the rule gives |
| Evaluator.EvalConstructorCall | src/main/kotlin/happy/ast/expression/ConstructorCall.kt:37 | gives the outcome the evaluation rule gives for the state it starts from and, on success, leaves exactly the state the rule gives |
| Evaluator.EvalFields | src/main/kotlin/happy/ast/expression/ConstructorCall.kt:37 | the loop over the assignments gives the outcome the evaluation rule gives for the state it starts from and, on success, leaves exactly the state the rule gives |
| Evaluator.EvalCall | src/main/kotlin/happy/ast/expression/FunctionCall.kt:61-75 | gives the outcome the evaluation rule gives for the state it starts from and, on success, leaves exactly the state the rule gives |
| Evaluator.EvalArgs | src/main/kotlin/happy/ast/expression/FunctionCall.kt:64-72 | the loop over the arguments gives the outcome the evaluation rule gives for the state it starts from and, on success, leaves exactly the state the rule gives |
| Evaluator.Invoke | src/main/kotlin/happy/Function.kt:13-19 | gives the outcome the evaluation rule gives for the state it starts from and, on success, leaves exactly the state the rule gives |
| Evaluator.InvokeCustom | src/main/kotlin/happy/Function.kt:13-19 | a declared function gives the outcome the evaluation rule gives for the state it starts from and, on success, leaves exactly the state the rule gives |
| Evaluator.BindParams | src/main/kotlin/happy/Function.kt:15 | the loop binding the parameters gives the outcome the evaluation rule gives for the state it starts from and, on success, leaves exactly the state the rule gives |
| Evaluator.InvokeInterface | src/main/kotlin/happy/Type.kt:51-59 | an interface stub gives the outcome the evaluation rule gives for the state it starts from and, on success, leaves exactly the state the rule gives |
| Evaluator.InvokeBuiltIn | src/main/kotlin/happy/BuiltInFunction.kt:23-35 | `printLine` and `readLine` gives the outcome the evaluation rule gives for the state it starts from and, on success, leaves exactly the state the rule gives; the console is the context's output and input lines |
| Evaluator.Exec | src/main/kotlin/happy/ast/statement/Statement.kt:7 | `eval()` of any statement gives the outcome the evaluation rule gives for the state it starts from and, on success, leaves exactly the state the rule gives |
| Evaluator.ExecDeclaration | src/main/kotlin/happy/ast/statement/VariableDeclaration.kt:36-38 | gives the outcome the evaluation rule gives for the state it starts from and, on success, leaves exactly the state the rule gives |
| Evaluator.ExecAssignment | src/main/kotlin/happy/ast/statement/VariableAssignment.kt:17-19 | gives the outcome the evaluation rule gives for the state it starts from and, on success, leaves exactly the state the rule gives |
| Evaluator.ExecFor | src/main/kotlin/happy/ast/statement/ForLoop.kt:22-29 | gives the outcome the evaluation rule gives for the state it starts from and, on success, leaves exactly the state the rule gives |
| Evaluator.ForFrom | src/main/kotlin/happy/ast/statement/ForLoop.kt:25-28 | the loop over the range gives the outcome the evaluation rule gives for the state it starts from and, on success, leaves exactly the state the rule gives |
| Evaluator.ForPass | src/main/kotlin/happy/ast/statement/ForLoop.kt:24-27 | one pass gives the outcome the evaluation rule gives for the state it starts from and, on success, leaves exactly the state the rule gives |
| Evaluator.ExecWhile | src/main/kotlin/happy/ast/statement/WhileLoop.kt:17-21 | gives the outcome the evaluation rule gives for the state it starts from and, on success, leaves exactly the state the rule gives |
| Evaluator.WhileFrom | src/main/kotlin/happy/ast/statement/WhileLoop.kt:19 | the loop gives the outcome the evaluation rule gives for the state it starts from and, on success, leaves exactly the state the rule gives |
| Evaluator.ExecAll | src/main/kotlin/happy/ast/SourceFile.kt:31 | the statements in order gives the outcome the evaluation rule gives for the state it starts from and, on success, leaves exactly the state the rule gives |
| Interpreter.DefineAll | src/main/kotlin/happy/ast/SourceFile.kt:27 | `builtIns.forEach { defineFunction }` gives the outcome the evaluation rule gives for the state it starts from and, on success, leaves exactly the state the rule gives |
| Interpreter.DefineStubs | src/main/kotlin/happy/ast/InterfaceDeclaration.kt:38-44 | gives the outcome the evaluation rule gives for the state it starts from and, on success, leaves exactly the state the rule gives |
| Interpreter.EvalTypes | src/main/kotlin/happy/ast/SourceFile.kt:29 | gives the outcome the evaluation rule gives for the state it starts from and, on success, leaves exactly the state the rule gives |
| Interpreter.EvalFunctionDeclaration | src/main/kotlin/happy/ast/FunctionDeclaration.kt:40-43 | gives the outcome the evaluation rule gives for the state it starts from and, on success, leaves exactly the state the rule gives |
| Interpreter.EvalFunctions | src/main/kotlin/happy/ast/SourceFile.kt:30 | gives the outcome the evaluation rule gives for the state it starts from and, on success, leaves exactly the state the rule gives |
| Interpreter.ExportValues | src/main/kotlin/happy/ast/ImportDeclaration.kt:23-25 | gives the outcome the evaluation rule gives for the state it starts from and, on success, leaves exactly the state the rule gives |
| Interpreter.EvalFile | src/main/kotlin/happy/ast/SourceFile.kt:26-33 | gives the outcome the evaluation rule gives for the state it starts from and, on success, leaves exactly the state the rule gives |
| Interpreter.EvalImports | src/main/kotlin/happy/ast/SourceFile.kt:28 | gives the outcome the evaluation rule gives for the state it starts from and, on success, leaves exactly the state the rule gives |
| Interpreter.EvalImport | src/main/kotlin/happy/ast/ImportDeclaration.kt:18-27 | gives the outcome the evaluation rule gives for the state it starts from and, on success, leaves exactly the state the rule gives |
| Interpreter.ImportPath | src/main/kotlin/happy/ast/ImportDeclaration.kt:22 | gives the outcome the evaluation rule gives for the state it starts from and, on success, leaves exactly the state the rule gives |
| Interpreter.ImportFile | src/main/kotlin/happy/ast/ImportDeclaration.kt:22-26 | gives the outcome the evaluation rule gives for the state it starts from and, on success, leaves exactly the state the rule gives |
| EvalProperties.LiteralEvaluatesToItself | src/main/kotlin/happy/ast/expression/literal/IntLiteral.kt:11 | a literal evaluates to the value it stands for (a symbol to its own type) and leaves the machine as it was |
| EvalProperties.BracketAndCastAreTransparent | src/main/kotlin/happy/ast/expression/TypeCast.kt:11 | a bracket and a cast give exactly what the inner expression gives; the cast checks nothing at run time |
| EvalProperties.NegationNegates | src/main/kotlin/happy/ast/expression/Negation.kt:10 | `!` gives the logical not of a Boolean operand, a cast failure for any other value, and passes on the operand's exception |
| EvalProperties.IfTakesOneBranch | src/main/kotlin/happy/ast/expression/IfExpression.kt:20-24 | `if` evaluates exactly the branch its condition selects, from the state the condition left; a non-Boolean condition is a cast failure and the condition's exception is passed on |
| EvalProperties.NoEqualPatternGivesElse | src/main/kotlin/happy/ast/expression/MatchExpression.kt:25-33 | when no literal pattern equals the scrutinee, `match` gives exactly what the else value gives |
| EvalProperties.FirstEqualPatternWins | src/main/kotlin/happy/ast/expression/MatchExpression.kt:27-30 | the first literal pattern equal to the scrutinee selects the result, whatever the patterns after it are |
| EvalProperties.BlockLetIsLocal | src/test/kotlin/happy/ScopeTest.kt:58-59 | `{ let x = i; x }` gives `i`, and afterwards every name has the value it had before the block (an outer `x` included, a new `x` unknown again) |
| EvalFrame.EvalKeeps | src/main/kotlin/happy/ast/expression/ExpressionBlock.kt:22-24 | evaluating an expression keeps every existing layer's parent and the set of names it binds |
| EvalFrame.ExecKeeps | src/main/kotlin/happy/ast/statement/VariableDeclaration.kt:37 | executing a statement keeps every existing layer's parent, and the set of names of every layer but the top one |
| EvalFrame.ExpressionKeepsNames | src/test/kotlin/happy/ScopeTest.kt:58-61 | after an expression finishes, the evaluator sees exactly the names it saw before |
| EvalFrame.InvokeKeepsCallerNames | src/test/kotlin/happy/ScopeTest.kt:73-84 | after a call finishes, the caller sees exactly the names it saw before: the callee's parameters and locals do not leak |
| EvalFrame.ImportAddsListedNames | src/main/kotlin/happy/ast/ImportDeclaration.kt:18-27 | after an import, the importer sees exactly the names it saw plus the listed ones, each listed name with the value the imported file left for it |
| EvalProperties.OperandEvaluates | src/main/kotlin/happy/ast/expression/IdExpression.kt:14 | a name bound to an integer, or an integer literal, evaluates to that integer without changing the machine |
| EvalProperties.OperatorOnInts | src/main/kotlin/happy/ast/expression/math/Subtraction.kt:14 | `-`, `*`, `%`, `<` and `<=` on two integer operands give the integer operator's result (division by zero for `% 0`) |
| EvalProperties.AdditionOnInts | src/main/kotlin/happy/ast/expression/math/Addition.kt:17-20 | `+` resolved as integer addition gives the 32-bit wrapped sum of its operands |
| EvalProperties.AdditionInRange | src/main/kotlin/happy/ast/expression/math/Addition.kt:19 | an integer `+` whose exact sum fits in 32 bits gives that exact sum |
| EvalProperties.AssignmentOfValue | src/main/kotlin/happy/ast/statement/VariableAssignment.kt:17-19 | assigning a visible name the value its right-hand side gives succeeds and leaves exactly the machine `assign` gives |
| EvalProperties.EnterLoop | src/main/kotlin/happy/ast/statement/ForLoop.kt:23 | entering a loop pushes an empty layer whose parent is the old top, so every name still sees what it saw |
| EvalProperties.DefineInLoop | src/main/kotlin/happy/ast/statement/ForLoop.kt:25 | defining the iterator in the loop layer succeeds and changes nothing any name sees from outside the loop |
| EvalProperties.AssignInLoop | src/main/kotlin/happy/ast/statement/VariableAssignment.kt:18 | assigning an outer name from inside a loop succeeds and changes exactly that one outer binding |
| EvalProperties.LeaveLoop | src/main/kotlin/happy/ast/statement/ForLoop.kt:28 | leaving the loop layer restores the stack, and the visible bindings are the outer ones the loop accumulated |
| EvalProperties.ForPassAdds | src/main/kotlin/happy/ast/statement/ForLoop.kt:25-26 | one pass of `for i in ..` whose body is `acc = acc + i` adds `i` to `acc` and changes nothing else outside the loop |
| EvalProperties.ForAddsRange | src/main/kotlin/happy/ast/statement/ForLoop.kt:24-27 | the passes from `i` to the last bound, for a non-negative start and accumulator, add the sum of `i..last` to `acc` and change nothing else outside the loop, when that total fits in 32 bits |
| EvalProperties.ExecForLoop | src/main/kotlin/happy/ast/statement/ForLoop.kt:22-29 | a `for` loop's outcome is the outcome of its passes inside one pushed layer, which is popped at the end |
| EvalProperties.ForLoopAddsRange | src/main/kotlin/happy/ast/statement/ForLoop.kt:22-29 | `for i in a..b { acc = acc + i; }` with `0 <= a` and a non-negative `acc` whose final total fits in 32 bits succeeds, keeps the stack, and its only visible effect is `acc` increased by the sum of `a..b`; the iterator does not survive |
| EvalProperties.ExecWhileLoop | src/main/kotlin/happy/ast/statement/WhileLoop.kt:17-21 | a `while` loop's outcome is the outcome of its passes inside one pushed layer, which is popped at the end |
| EvalProperties.CountTest | src/main/kotlin/happy/ast/statement/WhileLoop.kt:18 | the condition `x < k` evaluates to whether `x`'s current value is below `k` |
| EvalProperties.CountPass | src/main/kotlin/happy/ast/statement/WhileLoop.kt:18 | one pass of `while x < k { x = x + 1; }` with `x` below `k` increments `x` and changes nothing else |
| EvalProperties.CountsUp | src/main/kotlin/happy/ast/statement/WhileLoop.kt:18 | the passes of `while x < k { x = x + 1; }` from `x == a <= k` end with `x == k` and nothing else changed, given fuel for `k - a` passes |
| EvalProperties.WhileLoopCountsUp | src/main/kotlin/happy/ast/statement/WhileLoop.kt:17-21 | `while x < k { x = x + 1; }` from `x == a <= k` succeeds, keeps the stack, and its only visible effect is `x == k` |
| EvalProperties.ArithmeticExamples | src/test/kotlin/happy/InterpreterTest.kt:46-50 | `1 + 2`, `3 - 2`, `2 * 3` and `8 % 3` evaluate to 3, 1, 6 and 2 |
| EvalProperties.SignAndEqualityExamples | src/test/kotlin/happy/InterpreterTest.kt:82-83 | `1 == 1` is true and `1 == 2` is false; `-5` evaluates to -5 (line 44) |
| EvalProperties.ComparisonExamples | src/test/kotlin/happy/InterpreterTest.kt:88-93 | `1 < 2` and `1 <= 1` are true, `2 < 1` and `2 <= 1` are false |
| EvalProperties.ForLoopSumsToSix | src/test/kotlin/happy/InterpreterTest.kt:106-117 | `for i in 1..3 { x = x + i; }` from `x == 0` leaves `x == 6` and every other name as it was |
| EvalProperties.ForLoopKeepsOuterName | src/test/kotlin/happy/ScopeTest.kt:88-93 | with `i == 42` and `x == 5`, `for i in 1..5 { x = x + i; }` leaves `x == 20` and `i == 42` |
| EvalProperties.WhileLoopReachesTen | src/test/kotlin/happy/ScopeTest.kt:101-104 | `while x < 10 { x = x + 1; }` from `x == 5` leaves `x == 10` and every other name as it was |

## Left out

- The lexer and parser (`ParseTreeToAst`), `Main` and the command line are not part of this model; a program enters the model as its AST.
- Operator precedence (InterpreterTest.kt lines 97-103) is settled by the parser, so it has no counterpart here.
- `GreaterThan`, `Division` and `!=`/`>=` appear in the tests but their nodes are not part of this model.
- Reading and printing (`readLine`, `printLine`) become an input list and an output log carried in the state.
- The clock, the JVM heap and the performance tests are not modelled.
- Evaluation and import checking take a fuel bound. Running out of fuel is a distinct outcome, `OutOfFuel`, which the Kotlin code does not have (it loops or overflows its stack).
- Cyclic imports end in `OutOfFuel` in the model; the Kotlin code overflows its stack.
- After a failed evaluation or check, the state the model leaves is only constrained by the invariants (valid layers, diagnostics only appended); the exact partial state of the Kotlin objects is not specified.
- Node-local mutable state (`resolvedType`, `resolvedCall`, `completeFunctions`, `function`) lives in tables on the context keyed by node identity; it is not copied when a node is shared.
- A `lateinit` property read before it is set becomes the failure `Uninitialized`; the interface type's `type` property is not modelled separately.
- The `parentScope` of stub functions is not modelled: stubs are never invoked.
- `InterfaceFunction` dispatch: the Kotlin class overrides a two-argument `invoke` from a foreign interpreter API; the model dispatches through `IIO.getVariant` and calls the chosen variant with the underlying value first.
- Built-in functions run without pushing a layer; their I/O is the log and input list above.
- The text of a record, an IIO or a function value in string concatenation is not modelled (the failure `NotModelled`).
- Diagnostic messages render built-in, record, generic and symbol types as Kotlin's data-class `toString` does; a record prints in full as `DataType(name=…, fields={…})`. A message that would embed an enum, interface, overload-set or pre-applied function type is not given (`Diagnostics.TypeText` answers `None`), because their Kotlin text lists the members of an enum in the order of its `Set` (the model keeps an unordered set) or prints whole functions with their AST bodies, which the model does not render.
- A record's fields (`DataType.fields`, a Kotlin `Map`), a function's parameters (built with `associate`) and an interface's overload sets (`InterfaceType.functions`, a Kotlin `Set`) are sequences in declaration order. Type equality is therefore order-sensitive in the model where Kotlin's `Map`/`Set` equality is not: two records of the same name whose fields are declared in different orders are equal in Kotlin and distinct here. This affects the `this == other` base case of `assignableFrom` and the `declaredType != actualType` test of `FunctionCall.populateContext`; a program whose equal types are always written in the same order is modelled exactly.
- `String.toInt` is modelled on the ASCII digits `0`-`9` only; Kotlin also accepts other Unicode decimal digits. Its only use here is on `Loc` text, which is ASCII.
- A constructor call's field assignments, a record's fields and a function's parameters are Kotlin `Map`s (the last two built with `associate`), so a name cannot repeat there; the model keeps each as a list in source order, and a repeated name is outside what the parser produces. Where the model meets one anyway, a constructor call's repeated assignment keeps its last value, while a repeated record field or parameter name is not collapsed into one entry as Kotlin's `associate` would do.
- `toIIO` fails with a cast failure when the wrapping type is not an interface; in Kotlin that type is an `InterfaceType` by construction, so this branch is unreachable there.
- `WhileLoop.typeCheck` enters and leaves the runtime scope, not the typing scope; the model keeps this, so a `let` inside a `while` body stays visible to the checker after the loop.
- Checker.TypeOf: requires a non-empty typing stack, which every entry point provides (the context always starts with one layer); `type()` on an empty stack is not modelled.
- Checker.TypeOfAddition: the node's resolved type (the left operand's type) is written before the operands are typed again, so the contract does not state that entry. Stating it would need every typing method to promise which node numbers it writes; the model does not carry that frame.
- Checker.TypeOfConstructorCall: for a declared record, the record stored as the node's type is written before the assignments are typed, and its contract does not state that entry, for the same reason. It does state that an unbound type name stores nothing.
- Checker.TypeOf: does not restate the call-node entries; `Checker.TypeOfCall` and `Checker.ApplyCall` state them. The variant, the argument expressions and the wrapping marks are written last, after every sub-expression is typed.
- Checker.TypeCheck: the runtime bindings are only proved to keep their stack, not to be left unchanged by checking.
- The end-to-end examples of the tests with function calls, records and interfaces are not restated as lemmas.
- EvalProperties.ForLoopAddsRange: covers only the body `acc = acc + i` with a non-negative start and accumulator and no 32-bit overflow; wrap-around in a loop is not covered.
- EvalProperties.WhileLoopCountsUp: covers only the body `x = x + 1` under `x < k`, and needs fuel for every pass; the two-statement loop of InterpreterTest.kt lines 120-135 is not restated.
- EvalProperties.BlockLetIsLocal: states the scope rule for one `let` of an integer literal, not for arbitrary block bodies; `EvalFrame.ExpressionKeepsNames` states for every expression that the set of visible names is unchanged.
- EvalFrame.ImportAddsListedNames: an unlisted name is proved to stay visible exactly when it was, not to keep its value; the frame invariant tracks which names each layer binds, not their values.
- TypingRules.Incompatibility: its own contract states only the form of a diagnostic; when there is one is stated by `TypingRules.IncompatibilityDecides`, so that callers that only pass the diagnostics on do not reason about assignability.
