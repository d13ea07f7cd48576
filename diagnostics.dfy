/** The diagnostics the checker collects, their text, and the `a:b-c:d` source
    range notation together with the parser for it. */
module Diagnostics {
  import opened Wrappers
  import opened KotlinInt
  import opened Syntax

  datatype TypeError =
    | IncompatibleType(expectedType: Type, actualType: Type, loc: Loc)
    | UnknownIdentifier(name: string, loc: Loc)
    | UndeclaredType(name: string, loc: Loc)
    | UndeclaredField(field: string, onType: Type, loc: Loc)
    | UninitializedField(field: string, onType: Type, loc: Loc)

  // -------------------------------------------------------------- range text

  /** `Loc.toString`: `startLine:startPos-endLine:endPos`. */
  function LocText(loc: Loc): string
  {
    Text(loc.startLine) + ":" + Text(loc.startPos) + "-" + Text(loc.endLine) + ":" + Text(loc.endPos)
  }

  /** `String.split` on a one-character delimiter: the pieces between the
      delimiters, empty pieces included; there is always at least one piece. */
  function Split(s: string, sep: char): (r: seq<string>)
    ensures |r| >= 1
    ensures forall k :: 0 <= k < |r| ==> sep !in r[k]
    decreases |s|
  {
    if s == [] then [""]
    else
      var rest := Split(s[1..], sep);
      if s[0] == sep then [""] + rest else [[s[0]] + rest[0]] + rest[1..]
  }

  /** The pieces joined back with the delimiter. */
  function Join(parts: seq<string>, sep: char): string
    requires |parts| >= 1
    decreases |parts|
  {
    if |parts| == 1 then parts[0] else parts[0] + [sep] + Join(parts[1..], sep)
  }

  /** Splitting loses nothing: joining the pieces gives the text back. */
  lemma {:induction false} SplitJoin(s: string, sep: char)
    ensures Join(Split(s, sep), sep) == s
    decreases |s|
  {
    if s != [] {
      var rest := Split(s[1..], sep);
      SplitJoin(s[1..], sep);
      if s[0] == sep {
        assert Split(s, sep)[1..] == rest;
        assert s == [sep] + s[1..];
      } else {
        var r := Split(s, sep);
        if |rest| == 1 {
          assert r == [[s[0]] + rest[0]];
        } else {
          assert r[1..] == rest[1..];
          assert Join(rest, sep) == rest[0] + [sep] + Join(rest[1..], sep);
        }
      }
    }
  }

  /** Text without the delimiter is a single piece. */
  lemma {:induction false} SplitWithout(x: string, sep: char)
    requires sep !in x
    ensures Split(x, sep) == [x]
    decreases |x|
  {
    if x != [] {
      SplitWithout(x[1..], sep);
      assert [x[0]] + x[1..] == x;
    }
  }

  /** Text that starts with a piece free of the delimiter splits into that piece
      followed by the pieces of the rest. */
  lemma {:induction false} SplitAfter(x: string, y: string, sep: char)
    requires sep !in x
    ensures Split(x + [sep] + y, sep) == [x] + Split(y, sep)
    decreases |x|
  {
    if x == [] {
      assert x + [sep] + y == [sep] + y;
      assert ([sep] + y)[1..] == y;
    } else {
      SplitAfter(x[1..], y, sep);
      assert (x + [sep] + y)[1..] == x[1..] + [sep] + y;
      assert [x[0]] + x[1..] == x;
    }
  }

  /** The test helper `String.loc`: split on '-', then each half on ':', and read
      the four numbers in order. A missing piece is an index failure, a piece
      that is not a number a `NumberFormatException`; extra pieces are ignored. */
  function ParseLoc(s: string): Outcome<Loc>
  {
    var startEnd := Split(s, '-');
    var startLinePos := Split(startEnd[0], ':');
    if |startEnd| < 2 then Fail(IndexOutOfBounds)
    else
      var endLinePos := Split(startEnd[1], ':');
      var startLine :- ParseInt(startLinePos[0]);
      if |startLinePos| < 2 then Fail(IndexOutOfBounds)
      else
        var startPos :- ParseInt(startLinePos[1]);
        var endLine :- ParseInt(endLinePos[0]);
        if |endLinePos| < 2 then Fail(IndexOutOfBounds)
        else
          var endPos :- ParseInt(endLinePos[1]);
          Ok(Loc(startLine, startPos, endLine, endPos))
  }

  lemma DigitsHaveNoSeparator(n: nat, c: char)
    requires !IsDigit(c)
    ensures c !in Digits(n)
  {
  }

  /** Parsing the text of a range gives the range back when no field is
      negative; a negative field puts a second '-' into the text. */
  lemma LocRoundTrip(loc: Loc)
    requires loc.startLine >= 0 && loc.startPos >= 0 && loc.endLine >= 0 && loc.endPos >= 0
    ensures ParseLoc(LocText(loc)) == Ok(loc)
  {
    var a, b, c, d := Text(loc.startLine), Text(loc.startPos), Text(loc.endLine), Text(loc.endPos);
    DigitsHaveNoSeparator(loc.startLine, '-');
    DigitsHaveNoSeparator(loc.startPos, '-');
    DigitsHaveNoSeparator(loc.endLine, '-');
    DigitsHaveNoSeparator(loc.endPos, '-');
    DigitsHaveNoSeparator(loc.startLine, ':');
    DigitsHaveNoSeparator(loc.endLine, ':');
    DigitsHaveNoSeparator(loc.startPos, ':');
    DigitsHaveNoSeparator(loc.endPos, ':');
    var start, end := a + ":" + b, c + ":" + d;
    assert LocText(loc) == start + ['-'] + end;
    assert '-' !in start;
    assert '-' !in end;
    SplitAfter(start, end, '-');
    SplitWithout(end, '-');
    assert Split(LocText(loc), '-') == [start, end];
    SplitAfter(a, b, ':');
    SplitWithout(b, ':');
    SplitAfter(c, d, ':');
    SplitWithout(d, ':');
    assert start == a + [':'] + b && end == c + [':'] + d;
    TextRoundTrip(loc.startLine);
    TextRoundTrip(loc.startPos);
    TextRoundTrip(loc.endLine);
    TextRoundTrip(loc.endPos);
  }

  /** A range whose first number is not a number is rejected by `toInt`, as is
      text with no '-' at all by the index into the halves. */
  lemma ParseLocRejects()
    ensures ParseLoc("x:1-2:3") == Fail(NumberFormat)
    ensures ParseLoc("1:2") == Fail(IndexOutOfBounds)
  {
    SplitAfter("x:1", "2:3", '-');
    SplitWithout("2:3", '-');
    assert "x:1-2:3" == "x:1" + ['-'] + "2:3";
    SplitAfter("x", "1", ':');
    SplitWithout("1", ':');
    assert "x:1" == "x" + [':'] + "1";
    assert ParseInt("x") == Fail(NumberFormat) by {
      assert !IsDigit("x"[0]);
    }
    SplitWithout("1:2", '-');
  }

  // ----------------------------------------------------------- message text

  /** The data-class text of a type, for the variants whose text is determined
      by the model: built-in, record, generic and symbol types. */
  function TypeText(t: Type): Option<string>
  {
    match t
    case BuiltInType(name) => Some("BuiltInType(name=" + name + ")")
    case DataType(name, fields) =>
      (match FieldsText(fields)
       case None => None
       case Some(text) => Some("DataType(name=" + name + ", fields={" + text + "})"))
    case GenericType(name) => Some("GenericType(name=" + name + ")")
    case SymbolType(name) => Some("SymbolType(name=" + name + ")")
    case _ => None
  }

  /** `name=type` entries separated by ", ", in declaration order. */
  function FieldsText(fields: seq<Field>): Option<string>
  {
    if fields == [] then Some("")
    else
      match FieldText(fields[0])
      case None => None
      case Some(head) =>
        if |fields| == 1 then Some(head)
        else
          match FieldsText(fields[1..])
          case None => None
          case Some(tail) => Some(head + ", " + tail)
  }

  function FieldText(f: Field): Option<string>
  {
    match TypeText(f.fieldType)
    case None => None
    case Some(text) => Some(f.name + "=" + text)
  }

  /** ` at ` followed by the range, the end of most messages. */
  function RangeSuffix(loc: Loc): string
  {
    " at " + LocText(loc)
  }

  /** The message of a diagnostic, `None` when it would embed the text of a
      type this model does not render. */
  function Message(e: TypeError): Option<string>
  {
    match e
    case IncompatibleType(expected, actual, loc) =>
      (match (TypeText(expected), TypeText(actual))
       case (Some(x), Some(y)) => Some("Incompatible types at " + LocText(loc) + ", expected: " + x + ", actual: " + y)
       case _ => None)
    case UnknownIdentifier(name, loc) => Some("Unknown identifier " + name + RangeSuffix(loc))
    case UndeclaredType(name, loc) => Some("Undeclared type " + name + RangeSuffix(loc))
    case UndeclaredField(field, t, loc) =>
      (match TypeText(t)
       case None => None
       case Some(x) => Some("Undeclared field " + field + " of type " + x + RangeSuffix(loc)))
    case UninitializedField(field, t, loc) =>
      (match TypeText(t)
       case None => None
       case Some(x) => Some("Uninitialized field " + field + " of type " + x + RangeSuffix(loc)))
  }

  predicate EndsWith(s: string, suffix: string)
  {
    |s| >= |suffix| && s[|s| - |suffix|..] == suffix
  }

  lemma EndsWithConcat(prefix: string, suffix: string)
    ensures EndsWith(prefix + suffix, suffix)
  {
    assert (prefix + suffix)[|prefix|..] == suffix;
  }

  /** Every message other than an incompatibility ends with ` at ` and the range
      of the offending node. */
  lemma MessageEndsWithRange(e: TypeError)
    requires !e.IncompatibleType? && Message(e).Some?
    ensures EndsWith(Message(e).value, RangeSuffix(e.loc))
  {
    var suffix := RangeSuffix(e.loc);
    match e
    case UnknownIdentifier(name, loc) =>
      assert Message(e).value == ("Unknown identifier " + name) + suffix;
      EndsWithConcat("Unknown identifier " + name, suffix);
    case UndeclaredType(name, loc) =>
      assert Message(e).value == ("Undeclared type " + name) + suffix;
      EndsWithConcat("Undeclared type " + name, suffix);
    case UndeclaredField(field, t, loc) =>
      var prefix := "Undeclared field " + field + " of type " + TypeText(t).value;
      assert Message(e).value == prefix + suffix;
      EndsWithConcat(prefix, suffix);
    case UninitializedField(field, t, loc) =>
      var prefix := "Uninitialized field " + field + " of type " + TypeText(t).value;
      assert Message(e).value == prefix + suffix;
      EndsWithConcat(prefix, suffix);
  }

  /** A message is missing only when a type it embeds has no text in this model. */
  lemma MessageMissingOnlyForUnrenderedTypes(e: TypeError)
    ensures Message(e).None? <==>
      match e
      case IncompatibleType(x, y, _) => TypeText(x).None? || TypeText(y).None?
      case UndeclaredField(_, t, _) => TypeText(t).None?
      case UninitializedField(_, t, _) => TypeText(t).None?
      case _ => false
  {
  }

  /** Example: the message of an unknown identifier at `1:2-3:4`. */
  lemma UnknownIdentifierMessage()
    ensures Message(UnknownIdentifier("x", Loc(1, 2, 3, 4))) == Some("Unknown identifier x at 1:2-3:4")
  {
    assert Digits(1) == "1" && Digits(2) == "2" && Digits(3) == "3" && Digits(4) == "4";
    assert LocText(Loc(1, 2, 3, 4)) == "1:2-3:4";
    assert RangeSuffix(Loc(1, 2, 3, 4)) == " at 1:2-3:4";
    assert "Unknown identifier " + "x" + " at 1:2-3:4" == "Unknown identifier x at 1:2-3:4";
  }
}
