/** The built-in types and the two built-in functions. */
module BuiltIns {
  import opened Syntax

  const NothingType: Type := BuiltInType("Nothing")
  const AnyType: Type := BuiltInType("Any")
  const IntegerType: Type := BuiltInType("Integer")
  const StringType: Type := BuiltInType("String")
  const BooleanType: Type := BuiltInType("Boolean")

  /** The built-in types a source file registers, in the iteration order of
      Kotlin's `setOf`. `NothingType` is deliberately not among them. */
  const RegisteredTypes: seq<Type> := [AnyType, IntegerType, StringType, BooleanType]

  /** `printLine(text: Any): Nothing` */
  const PrintLineFunction: Function := BuiltInFunction("printLine", [Parameter("text", AnyType)], NothingType, PrintLine)

  /** `readLine(): String` */
  const ReadLineFunction: Function := BuiltInFunction("readLine", [], StringType, ReadLine)

  /** The built-in functions in registration order. */
  const Functions: seq<Function> := [PrintLineFunction, ReadLineFunction]

  /** The five built-in types are pairwise distinct and each is named by its label. */
  lemma BuiltInTypesDistinct()
    ensures |{NothingType, AnyType, IntegerType, StringType, BooleanType}| == 5
    ensures NothingType.name == "Nothing" && AnyType.name == "Any" && IntegerType.name == "Integer"
    ensures StringType.name == "String" && BooleanType.name == "Boolean"
  {
  }

  /** The registered set is exactly Any, Integer, String and Boolean; Nothing is
      not in it, so a program can name every built-in type except Nothing. */
  lemma RegisteredTypesExact()
    ensures (set t | t in RegisteredTypes) == {AnyType, IntegerType, StringType, BooleanType}
    ensures NothingType !in RegisteredTypes
    ensures forall i, j :: 0 <= i < j < |RegisteredTypes| ==> RegisteredTypes[i] != RegisteredTypes[j]
  {
  }
}
