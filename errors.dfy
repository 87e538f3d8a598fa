/**
 * `TuberException`: the typed error every operator fallback raises, with the
 * node it points at and its deterministic message
 * "Error: operation[ "<shortName>"] not defined[ for <operands>]."
 */
module Errors {
  import opened Values
  import Text

  /** The node classes that raise typed errors in the modelled core. */
  datatype NodeClass =
    | AddNode
    | NotEqualNode
    | GreaterOrEqualNode
    | AndNode
    | ReadArrayElementNode
    | FunctionNode

  /** The `shortName` of the class's `@NodeInfo` annotation, when it has one. */
  function NodeInfoShortName(c: NodeClass): Option<string>
  {
    match c
    case AddNode => Some("+")
    case NotEqualNode => Some("!=")
    case GreaterOrEqualNode => Some(">=")
    case AndNode => Some("&&")
    case ReadArrayElementNode => None
    case FunctionNode => None
  }

  /** A node instance of the tree: its class and an identity distinguishing instances. */
  datatype Node = Node(cls: NodeClass, id: nat)

  /**
   * An argument of `ofError`: a runtime value, Java `null` (an operand that was
   * never produced), or some other host object, printed by its `toString`.
   */
  datatype Arg = Val(v: Value) | Missing | Foreign(text: string)

  ghost predicate ArgsNested(arguments: seq<Arg>, depth: nat)
    reads *
  {
    forall i :: 0 <= i < |arguments| ==> arguments[i].Val? ==> Nested(arguments[i].v, depth)
  }

  /**
   * The exception value: the node it was raised at and the operands it names.
   * Its message is `FormatErrorMessage` of the two.
   */
  datatype TuberException = TuberException(location: Node, arguments: seq<Arg>)

  /** `ofError`: an exception at `location` naming `arguments`. */
  function OfError(location: Node, arguments: seq<Arg>): (e: TuberException)
    ensures GetLocation(e) == location
    ensures e.arguments == arguments
  {
    TuberException(location, arguments)
  }

  /** `getLocation`. */
  function GetLocation(e: TuberException): Node
  {
    e.location
  }

  /** How one argument of the message is rendered. */
  function Describe(host: Host, a: Arg, ghost depth: nat): string
    requires a.Val? ==> Nested(a.v, depth)
    reads *
  {
    match a
    case Val(v) =>
      (match v
       case Int(_) => "Number " + Display(host, v, depth)
       case Float(_) => "Number " + Display(host, v, depth)
       case Bool(_) => "Boolean " + Display(host, v, depth)
       case Str(s) => "String \"" + s + "\""
       case Null => "NULL"
       case Arr(_) => "Array " + Display(host, v, depth))
    case Missing => "ANY"
    case Foreign(text) => text
  }

  function Descriptions(host: Host, arguments: seq<Arg>, ghost depth: nat): (r: seq<string>)
    requires ArgsNested(arguments, depth)
    reads *
    ensures |r| == |arguments|
    ensures forall i :: 0 <= i < |arguments| ==> r[i] == Describe(host, arguments[i], depth)
  {
    seq(|arguments|, i requires 0 <= i < |arguments| && ArgsNested(arguments, depth) reads * =>
      Describe(host, arguments[i], depth))
  }

  /** "Error: operation", then the quoted short name if the node's class has one, then " not defined". */
  function Head(location: Node): string
  {
    "Error: operation"
    + (match NodeInfoShortName(location.cls)
       case Some(name) => " \"" + name + "\""
       case None => "")
    + " not defined"
  }

  /** The message as a whole: the head, " for " and the joined operands when that text is not empty, and ".". */
  function ErrorMessage(host: Host, location: Node, arguments: seq<Arg>, ghost depth: nat): string
    requires ArgsNested(arguments, depth)
    reads *
  {
    var joined := Text.Join(Descriptions(host, arguments, depth), ", ");
    Head(location) + (if |joined| != 0 then " for " + joined else "") + "."
  }

  /** The message of a raised exception. */
  function Message(host: Host, e: TuberException, ghost depth: nat): string
    requires ArgsNested(e.arguments, depth)
    reads *
  {
    ErrorMessage(host, e.location, e.arguments, depth)
  }

  /**
   * `formatErrorMessage`: builds the message step by step, adding each
   * rendered argument to a joiner with separator ", ".
   */
  method FormatErrorMessage(host: Host, location: Node, arguments: seq<Arg>, ghost depth: nat)
    returns (message: string)
    requires ArgsNested(arguments, depth)
    ensures message == ErrorMessage(host, location, arguments, depth)
  {
    var result := "Error: operation";
    match NodeInfoShortName(location.cls) {
      case Some(name) => result := result + " \"" + name + "\"";
      case None =>
    }
    result := result + " not defined";
    assert result == Head(location);

    ghost var all := Descriptions(host, arguments, depth);
    var joiner := "";
    for i := 0 to |arguments|
      invariant joiner == Text.Join(all[..i], ", ")
    {
      var part := Describe(host, arguments[i], depth);
      if i == 0 {
        joiner := part;
      } else {
        Text.JoinSnoc(all[..i], part, ", ");
        joiner := joiner + ", " + part;
      }
      assert all[..i + 1] == all[..i] + [part];
    }
    assert all[..|arguments|] == all;

    if |joiner| != 0 {
      result := result + " for " + joiner;
    }
    message := result + ".";
  }

  /** Every message starts with "Error: operation", contains " not defined" and ends with ".". */
  lemma MessageShape(host: Host, location: Node, arguments: seq<Arg>, depth: nat)
    requires ArgsNested(arguments, depth)
    ensures var m := ErrorMessage(host, location, arguments, depth);
      "Error: operation" <= m && m[|m| - 1] == '.' &&
      exists k {:trigger m[k..]} :: 0 <= k <= |m| && " not defined" <= m[k..]
  {
    var m := ErrorMessage(host, location, arguments, depth);
    var h := Head(location);
    assert h <= m;
    var k := |h| - |" not defined"|;
    assert m[k..][..|" not defined"|] == h[k..];
  }

  /**
   * The short name, when the class has one, is quoted right after
   * "operation"; otherwise " not defined" follows "operation" directly.
   */
  lemma ShortNameQuoted(host: Host, location: Node, arguments: seq<Arg>, depth: nat)
    requires ArgsNested(arguments, depth)
    ensures var m := ErrorMessage(host, location, arguments, depth);
      match NodeInfoShortName(location.cls)
      case Some(name) => "Error: operation \"" + name + "\" not defined" <= m
      case None => "Error: operation not defined" <= m
  {
    var h := Head(location);
    match NodeInfoShortName(location.cls) {
      case Some(name) => assert h == "Error: operation \"" + name + "\" not defined";
      case None => assert h == "Error: operation not defined";
    }
  }

  /** Without arguments there is no " for " part. */
  lemma NoArgumentsMessage(host: Host, location: Node, depth: nat)
    ensures ErrorMessage(host, location, [], depth) ==
      match NodeInfoShortName(location.cls)
      case Some(name) => "Error: operation \"" + name + "\" not defined."
      case None => "Error: operation not defined."
  {
  }

  /** A runtime value is never rendered as empty text. */
  lemma DescribeValueNotEmpty(host: Host, v: Value, depth: nat)
    requires Nested(v, depth)
    ensures |Describe(host, Val(v), depth)| > 0
  {
  }

  /**
   * When the joiner is not empty, that is with two or more arguments or one
   * whose rendering is not empty, the message lists the rendered arguments
   * in the order given, joined by ", ", after " for ".
   */
  lemma ArgumentsListedInOrder(host: Host, location: Node, arguments: seq<Arg>, depth: nat)
    requires ArgsNested(arguments, depth)
    requires |arguments| > 1 || (|arguments| == 1 && |Describe(host, arguments[0], depth)| > 0)
    ensures ErrorMessage(host, location, arguments, depth) ==
      Head(location) + " for " + Text.Join(Descriptions(host, arguments, depth), ", ") + "."
  {
    var parts := Descriptions(host, arguments, depth);
    if |arguments| > 1 {
      assert Text.Join(parts, ", ") == parts[0] + ", " + Text.Join(parts[1..], ", ");
    }
  }

  /** The message for two operands, the shape every binary operator's fallback produces. */
  lemma TwoOperandMessage(host: Host, location: Node, first: Arg, second: Arg, depth: nat)
    requires first.Val? ==> Nested(first.v, depth)
    requires second.Val? ==> Nested(second.v, depth)
    ensures ErrorMessage(host, location, [first, second], depth) ==
      Head(location) + " for " + Describe(host, first, depth) + ", " + Describe(host, second, depth) + "."
  {
    assert ArgsNested([first, second], depth);
    ArgumentsListedInOrder(host, location, [first, second], depth);
    var parts := Descriptions(host, [first, second], depth);
    assert parts == [Describe(host, first, depth), Describe(host, second, depth)];
    assert parts[1..] == [parts[1]];
  }

  /** The message of a `&&` whose left operand was the text "test". */
  lemma LeftOperandMessageExample(host: Host, id: nat)
    ensures ErrorMessage(host, Node(AndNode, id), [Val(Str("test")), Missing], 0) ==
      "Error: operation \"&&\" not defined for String \"test\", ANY."
  {
    TwoOperandMessage(host, Node(AndNode, id), Val(Str("test")), Missing, 0);
    var first := Describe(host, Val(Str("test")), 0);
    var second := Describe(host, Missing, 0);
    assert first == "String \"test\"" && second == "ANY";
    var h := Head(Node(AndNode, id));
    assert h == "Error: operation \"&&\" not defined";
    LeftOperandConcatenation(h, first, second);
  }

  /** The pieces of the left-operand message, glued together. */
  lemma LeftOperandConcatenation(h: string, first: string, second: string)
    requires h == "Error: operation \"&&\" not defined"
    requires first == "String \"test\"" && second == "ANY"
    ensures h + " for " + first + ", " + second + "." ==
      "Error: operation \"&&\" not defined for String \"test\", ANY."
  {
  }

  /** The message of a `&&` whose left operand was true and whose right operand was the text "test". */
  lemma RightOperandMessageExample(host: Host, id: nat)
    ensures ErrorMessage(host, Node(AndNode, id), [Val(Bool(true)), Val(Str("test"))], 0) ==
      "Error: operation \"&&\" not defined for Boolean true, String \"test\"."
  {
    TwoOperandMessage(host, Node(AndNode, id), Val(Bool(true)), Val(Str("test")), 0);
    var first := Describe(host, Val(Bool(true)), 0);
    var second := Describe(host, Val(Str("test")), 0);
    assert first == "Boolean true" by { BooleanDescribed(host); }
    assert second == "String \"test\"";
    var h := Head(Node(AndNode, id));
    assert h == "Error: operation \"&&\" not defined";
    RightOperandConcatenation(h, first, second);
  }

  /** The boolean true is rendered as "Boolean true". */
  lemma BooleanDescribed(host: Host)
    ensures Describe(host, Val(Bool(true)), 0) == "Boolean true"
  {
    assert Display(host, Bool(true), 0) == "true";
  }

  /** The pieces of the right-operand message, glued together. */
  lemma RightOperandConcatenation(h: string, first: string, second: string)
    requires h == "Error: operation \"&&\" not defined"
    requires first == "Boolean true" && second == "String \"test\""
    ensures h + " for " + first + ", " + second + "." ==
      "Error: operation \"&&\" not defined for Boolean true, String \"test\"."
  {
  }

  /**
   * Every kind of argument in one message: numbers, a boolean, text, an
   * array, the Null singleton, a missing operand and a host object, for a
   * node without a short name. The host prints the doubles 1.0 and 2.0.
   */
  lemma AllArgumentKindsMessage(host: Host, id: nat, one: FloatBits, two: FloatBits, a: ArrayType)
    requires host.floatText(one) == "1.0" && host.floatText(two) == "2.0"
    requires a.values[..] == [Int(1), Float(two)]
    ensures var arguments := [Val(Int(1)), Val(Float(one)), Val(Bool(true)), Val(Str("test")),
        Val(Arr(a)), Val(Null), Missing, Foreign("1")];
      ArgsNested(arguments, 1) &&
      Descriptions(host, arguments, 1) ==
        ["Number 1", "Number 1.0", "Boolean true", "String \"test\"", "Array [1, 2.0]", "NULL", "ANY", "1"] &&
      ErrorMessage(host, Node(ReadArrayElementNode, id), arguments, 1) ==
        "Error: operation not defined for " + Text.Join(Descriptions(host, arguments, 1), ", ") + "."
  {
    var arguments := [Val(Int(1)), Val(Float(one)), Val(Bool(true)), Val(Str("test")),
        Val(Arr(a)), Val(Null), Missing, Foreign("1")];
    AllArgumentKindsDescribed(host, one, two, a);
    var parts := Descriptions(host, arguments, 1);
    JoinKeepsFirst(parts, ", ");
    var joined := Text.Join(parts, ", ");
    var h := Head(Node(ReadArrayElementNode, id));
    assert h == "Error: operation not defined";
    assert ErrorMessage(host, Node(ReadArrayElementNode, id), arguments, 1) == h + (" for " + joined) + ".";
    HeadBeforeOperands(h, joined);
  }

  /** The head without a short name, then " for " and the operands. */
  lemma HeadBeforeOperands(h: string, joined: string)
    requires h == "Error: operation not defined"
    ensures h + (" for " + joined) + "." == "Error: operation not defined for " + joined + "."
  {
    assert h + " for " == "Error: operation not defined for ";
    assert h + (" for " + joined) == (h + " for ") + joined;
  }

  /** How each argument of `AllArgumentKindsMessage` is rendered. */
  lemma AllArgumentKindsDescribed(host: Host, one: FloatBits, two: FloatBits, a: ArrayType)
    requires host.floatText(one) == "1.0" && host.floatText(two) == "2.0"
    requires a.values[..] == [Int(1), Float(two)]
    ensures var arguments := [Val(Int(1)), Val(Float(one)), Val(Bool(true)), Val(Str("test")),
        Val(Arr(a)), Val(Null), Missing, Foreign("1")];
      ArgsNested(arguments, 1) &&
      Descriptions(host, arguments, 1) ==
        ["Number 1", "Number 1.0", "Boolean true", "String \"test\"", "Array [1, 2.0]", "NULL", "ANY", "1"]
  {
    var arguments := [Val(Int(1)), Val(Float(one)), Val(Bool(true)), Val(Str("test")),
        Val(Arr(a)), Val(Null), Missing, Foreign("1")];
    PrintedArrayExample(host, two, a);
    ScalarsDescribed(host, one);
    assert ArgsNested(arguments, 1);
    var parts := Descriptions(host, arguments, 1);
    assert parts[0] == Describe(host, Val(Int(1)), 1) && parts[1] == Describe(host, Val(Float(one)), 1);
    assert parts[2] == Describe(host, Val(Bool(true)), 1) && parts[4] == Describe(host, Val(Arr(a)), 1);
    assert parts[3] == "String \"test\"" && parts[5] == "NULL" && parts[6] == "ANY" && parts[7] == "1";
  }

  /** The long 1, the double 1.0 and true, as rendered in a message. */
  lemma ScalarsDescribed(host: Host, one: FloatBits)
    requires host.floatText(one) == "1.0"
    ensures Describe(host, Val(Int(1)), 1) == "Number 1"
    ensures Describe(host, Val(Float(one)), 1) == "Number 1.0"
    ensures Describe(host, Val(Bool(true)), 1) == "Boolean true"
  {
    assert Text.DigitChar(1) == '1';
    assert Display(host, Int(1), 1) == "1";
    assert Display(host, Bool(true), 1) == "true";
  }

  /** The long 1 prints as "1", and the array {1, 2.0} as "[1, 2.0]". */
  lemma PrintedArrayExample(host: Host, two: FloatBits, a: ArrayType)
    requires host.floatText(two) == "2.0"
    requires a.values[..] == [Int(1), Float(two)]
    ensures Text.DecimalText(1) == "1"
    ensures Nested(Arr(a), 1) && Display(host, Arr(a), 1) == "[1, 2.0]"
    ensures Describe(host, Val(Arr(a)), 1) == "Array [1, 2.0]"
  {
    assert Text.DigitChar(1) == '1';
    assert a.values[0] == Int(1) && a.values[1] == Float(two);
    var elements := Displays(host, a.values[..], 0);
    DisplaysAt(host, a.values[..], 0, 0);
    DisplaysAt(host, a.values[..], 0, 1);
    assert elements == ["1", "2.0"];
    assert elements[1..] == ["2.0"];
    assert Text.Join(elements, ", ") == "1, 2.0";
    assert Display(host, Arr(a), 1) == "[" + "1, 2.0" + "]";
  }

  lemma {:induction false} JoinKeepsFirst(parts: seq<string>, separator: string)
    requires |parts| > 0
    ensures |Text.Join(parts, separator)| >= |parts[0]|
  {
    if |parts| > 1 {
      assert Text.Join(parts, separator) == parts[0] + separator + Text.Join(parts[1..], separator);
    }
  }
}
