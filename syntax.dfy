/** The abstract syntax of the language together with its types.

    Types and syntax live in one module because they refer to each other: a
    `PreAppliedFunction` type holds the receiver expression of a dot call, and a
    `CustomFunction` holds the statements and tail expression of its body.
    Kotlin's data-class equality becomes datatype equality. The few AST nodes
    whose Kotlin objects carry mutable `lateinit` state (additions, calls,
    constructor calls, function and interface declarations) have a `node` number
    that identifies the object; that state lives in `Context`. */
module Syntax {
  import opened Wrappers
  import opened KotlinInt

  /** A source range, `startLine:startPos-endLine:endPos` when printed. */
  datatype Loc = Loc(startLine: Int32, startPos: Int32, endLine: Int32, endPos: Int32)

  // ------------------------------------------------------------------ types

  datatype Type =
    | BuiltInType(name: string)
      /** A record type; `fields` keeps declaration order. */
    | DataType(name: string, fields: seq<Field>)
      /** A tagged union whose members are types and symbols. */
    | EnumType(name: string, types: set<Type>)
      /** A structural interface: the overload sets a type must provide. */
    | InterfaceType(name: string, overloads: seq<Overloads>)
    | GenericType(name: string)
    | SymbolType(name: string)
      /** A named set of overloads; the type of a function name. */
    | OverloadedFunction(name: string, functions: seq<Function>)
      /** `target.f` before the call: `f` with its first argument already chosen. */
    | PreAppliedFunction(name: string, firstArgument: Argument)

  datatype Field = Field(name: string, fieldType: Type)

  /** An overload set held inside an interface type or an IIO. */
  datatype Overloads = Overloads(name: string, functions: seq<Function>)

  datatype Parameter = Parameter(name: string, paramType: Type)

  datatype Argument = Argument(value: Expr, argType: Type)

  /** The two built-in functions. */
  datatype Native = PrintLine | ReadLine

  datatype Function =
      /** A function declared in source; `declaration` is the node number of its
          declaration, the identity its captured scope is attached to. */
    | CustomFunction(name: string, arguments: seq<Parameter>, returnType: Type,
                     statements: seq<Stmt>, returnExpression: Expr, declaration: nat)
      /** A signature required by an interface; it has no body. */
    | InterfaceFunction(name: string, arguments: seq<Parameter>, returnType: Type)
    | BuiltInFunction(name: string, arguments: seq<Parameter>, returnType: Type, native: Native)

  /** `Name` or `Name<Parameter>` written in source. */
  datatype TypeAnnotation = TypeAnnotation(name: string, genericParameter: Option<string>)

  // ------------------------------------------------------------ expressions

  datatype Expr =
    | IntLiteral(intValue: Int32)
    | BooleanLiteral(boolValue: bool)
    | StringLiteral(text: string)
    | SymbolLiteral(symbol: string)
    | IdExpression(id: string, loc: Loc)
    | BracketExpression(inner: Expr)
    | Negation(operand: Expr)
    | UnaryMinus(operand: Expr)
    | Addition(node: nat, left: Expr, right: Expr)
    | Subtraction(left: Expr, right: Expr)
    | Multiplication(left: Expr, right: Expr)
    | Mod(left: Expr, right: Expr)
    | LesserThan(left: Expr, right: Expr)
    | LesserEqual(left: Expr, right: Expr)
    | Equal(left: Expr, right: Expr)
    | TypeCast(value: Expr, asType: TypeAnnotation)
    | IfExpression(condition: Expr, ifTrue: Expr, ifFalse: Expr)
    | MatchExpression(value: Expr, patternValues: seq<MatchCase>, elseValue: Expr)
    | ExpressionBlock(statements: seq<Stmt>, returnExpression: Expr)
    | FunctionCall(node: nat, target: Expr, arguments: seq<Expr>, loc: Loc)
    | DotCall(target: Expr, id: string, loc: Loc)
    | ConstructorCall(node: nat, typeName: string, assignments: seq<FieldAssignment>, loc: Loc)

  datatype MatchCase = MatchCase(pattern: Expr, result: Expr)

  /** One `field: value` of a constructor call, in source order. */
  datatype FieldAssignment = FieldAssignment(field: string, value: Expr)

  // ------------------------------------------------------------- statements

  datatype Stmt =
    | ExpressionStatement(expression: Expr)
    | VariableDeclaration(name: string, typeAnnotation: Option<TypeAnnotation>,
                          initializer: Option<Expr>, loc: Loc)
    | VariableAssignment(name: string, value: Expr, loc: Loc)
      /** `for i in first..last`, an inclusive range. */
    | ForLoop(iteratorName: string, first: Int32, last: Int32, statements: seq<Stmt>)
    | WhileLoop(condition: Expr, statements: seq<Stmt>)

  // ----------------------------------------------------------- declarations

  /** `name: Annotation`, used for record fields and for parameters. */
  datatype Annotated = Annotated(name: string, annotation: TypeAnnotation)

  datatype FunctionSignature = FunctionSignature(name: string, arguments: seq<Annotated>, returnType: TypeAnnotation)

  datatype TypeDeclaration =
    | DataTypeDeclaration(name: string, fields: seq<Annotated>, loc: Loc)
    | EnumTypeDeclaration(name: string, genericParameter: Option<string>,
                          subtypes: seq<TypeAnnotation>, symbols: seq<string>)
    | InterfaceDeclaration(node: nat, name: string, signatures: seq<FunctionSignature>)

  datatype FunctionDeclaration =
    FunctionDeclaration(node: nat, signature: FunctionSignature, statements: seq<Stmt>,
                        returnExpression: Expr, loc: Loc)

  datatype ImportDeclaration = ImportDeclaration(filePath: string, ids: seq<string>)

  datatype SourceFile = SourceFile(imports: seq<ImportDeclaration>, types: seq<TypeDeclaration>,
                                   functions: seq<FunctionDeclaration>, statements: seq<Stmt>)

  // -------------------------------------------- sizes, the termination measure

  function ExprSize(e: Expr): (size: nat)
    ensures size >= 1
  {
    match e
    case IntLiteral(_) => 1
    case BooleanLiteral(_) => 1
    case StringLiteral(_) => 1
    case SymbolLiteral(_) => 1
    case IdExpression(_, _) => 1
    case BracketExpression(inner) => 1 + ExprSize(inner)
    case Negation(operand) => 1 + ExprSize(operand)
    case UnaryMinus(operand) => 1 + ExprSize(operand)
    case Addition(_, left, right) => 1 + ExprSize(left) + ExprSize(right)
    case Subtraction(left, right) => 1 + ExprSize(left) + ExprSize(right)
    case Multiplication(left, right) => 1 + ExprSize(left) + ExprSize(right)
    case Mod(left, right) => 1 + ExprSize(left) + ExprSize(right)
    case LesserThan(left, right) => 1 + ExprSize(left) + ExprSize(right)
    case LesserEqual(left, right) => 1 + ExprSize(left) + ExprSize(right)
    case Equal(left, right) => 1 + ExprSize(left) + ExprSize(right)
    case TypeCast(value, _) => 1 + ExprSize(value)
    case IfExpression(c, t, f) => 1 + ExprSize(c) + ExprSize(t) + ExprSize(f)
    case MatchExpression(v, cases, el) => 1 + ExprSize(v) + CasesSize(cases) + ExprSize(el)
    case ExpressionBlock(ss, r) => 1 + StmtsSize(ss) + ExprSize(r)
    case FunctionCall(_, target, args, _) => 1 + ExprSize(target) + ExprsSize(args)
    case DotCall(target, _, _) => 1 + ExprSize(target)
    case ConstructorCall(_, _, assignments, _) => 1 + AssignmentsSize(assignments)
  }

  function ExprsSize(es: seq<Expr>): nat
  {
    if es == [] then 0 else ExprSize(es[0]) + ExprsSize(es[1..])
  }

  function CaseSize(c: MatchCase): nat
  {
    ExprSize(c.pattern) + ExprSize(c.result)
  }

  function CasesSize(cs: seq<MatchCase>): nat
  {
    if cs == [] then 0 else CaseSize(cs[0]) + CasesSize(cs[1..])
  }

  function AssignmentSize(a: FieldAssignment): nat
  {
    ExprSize(a.value)
  }

  function AssignmentsSize(assignments: seq<FieldAssignment>): nat
  {
    if assignments == [] then 0 else AssignmentSize(assignments[0]) + AssignmentsSize(assignments[1..])
  }

  function InitializerSize(initializer: Option<Expr>): nat
  {
    match initializer
    case None => 0
    case Some(v) => ExprSize(v)
  }

  function StmtSize(s: Stmt): nat
  {
    match s
    case ExpressionStatement(e) => 1 + ExprSize(e)
    case VariableDeclaration(_, _, initializer, _) => 1 + InitializerSize(initializer)
    case VariableAssignment(_, value, _) => 1 + ExprSize(value)
    case ForLoop(_, _, _, body) => 1 + StmtsSize(body)
    case WhileLoop(condition, body) => 1 + ExprSize(condition) + StmtsSize(body)
  }

  function StmtsSize(ss: seq<Stmt>): nat
  {
    if ss == [] then 0 else StmtSize(ss[0]) + StmtsSize(ss[1..])
  }

  lemma {:induction false} ExprsSizeAt(es: seq<Expr>, i: nat)
    requires i < |es|
    ensures ExprSize(es[i]) <= ExprsSize(es)
  {
    if i > 0 {
      ExprsSizeAt(es[1..], i - 1);
    }
  }

  lemma {:induction false} CasesSizeAt(cs: seq<MatchCase>, i: nat)
    requires i < |cs|
    ensures CaseSize(cs[i]) <= CasesSize(cs)
  {
    if i > 0 {
      CasesSizeAt(cs[1..], i - 1);
    }
  }

  lemma {:induction false} AssignmentsSizeAt(assignments: seq<FieldAssignment>, i: nat)
    requires i < |assignments|
    ensures AssignmentSize(assignments[i]) <= AssignmentsSize(assignments)
  {
    if i > 0 {
      AssignmentsSizeAt(assignments[1..], i - 1);
    }
  }

  lemma {:induction false} StmtsSizeAt(ss: seq<Stmt>, i: nat)
    requires i < |ss|
    ensures StmtSize(ss[i]) <= StmtsSize(ss)
  {
    if i > 0 {
      StmtsSizeAt(ss[1..], i - 1);
    }
  }
}
