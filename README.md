# Tuber interpreter core in Dafny

Tuber is a small dynamically typed language with a tree-walking interpreter
built on Truffle. This project models the interpreter's core and proves
properties of that model:

- **Runtime values.** Values are 64-bit integers, doubles, booleans, text,
  the Null singleton and `ArrayType` arrays. Arrays are shared mutable heap
  objects, so aliasing is real in the model.
- **Printed form and equality.** Values have a printed form (`toString`,
  `Arrays.deepToString` for arrays) and a structural `equals`.
- **Typed errors.** `TuberException` carries the node it was raised at and
  the operands it names. Its message comes from a deterministic formatter.
- **Operator dispatch.** `+`, `!=`, `>=` and the short-circuit `&&` are each
  an ordered table of type-specialised cases ending in a fallback that raises
  a typed error.
- **Typed narrowing.** The `execute*` methods of `ExpressionNode` narrow a
  generic result to one kind.
- **Access, literal and flow nodes:**
  - indexed array reads, with Java's `(int)` narrowing of the index;
  - array literals, which allocate a new array on every evaluation;
  - argument reads, which default to Null;
  - local-slot reads, which box a primitive slot in place;
  - blocks;
  - `while` with `break` and `continue`;
  - function lookup by name when the call runs;
  - the root node, which registers every parsed function once and then calls
    `main`.
- **Tree construction** (`TuberNodeGeneratingVisitor`):
  - every function gets a fresh identifier-to-slot table;
  - parameter *i* is written from argument *i*;
  - assignments find or add their slot;
  - chained indices lower to nested element reads, and to a final write for
    an assignment.

How evaluation is represented:

- A child node is a total function from a state to a completion and a new
  state (`Completions.Evaluator`, `Completions.Statement`). A completion is
  normal or abrupt.
- Abrupt completions stand for the exceptions thrown through the tree:
  `break`, `continue`, `return`, the typed error, `UnexpectedResultException`,
  `ArithmeticException`, the lookup failure and the unsupported
  specialisation.
- The typed error is kept as its location and operands. Its text is
  `Errors.Message`, which `Errors.FormatErrorMessage` computes step by step.
  The language has no `catch`, so nothing runs between the throw and the read
  of the message.

The code imperative in the source is imperative here:

- The visitor, the function registry, the root node and the frame are classes
  with `modifies` clauses.
- The block, the `while` loop, the array literal and the error formatter are
  loops.
- Each method is proved against a specification function. Lemmas about that
  function state what the source promises.

## Model

| member | source | states |
|---|---|---|
| Values.ArrayType.constructor | tuber-language/src/test/java/com/github/sobolewskikamil/tuber/language/node/type/ArrayTypeTest.java:32-43 | The new array holds exactly the given elements, in a freshly allocated store. |
| Values.ArrayType.Get | tuber-language/src/test/java/com/github/sobolewskikamil/tuber/language/node/type/ArrayTypeTest.java:45-79 | `get(i)` is present exactly when `i` is below the length, and is then the element at `i`; it is empty at and past the end. |
| Values.Display | tuber-language/src/test/java/com/github/sobolewskikamil/tuber/language/node/type/ArrayTypeTest.java:139-151 | Defines `toString` of a runtime value: the long's decimal text, the host's double text, `true`/`false`, the text itself, `null`, and for an array "[" + the elements' printed forms joined by ", " + "]" (`Arrays.deepToString`). Its properties are carried by `Values.DisplaysAt`, `Errors.AllArgumentKindsMessage` and `AddNode.SpliceExample`. |
| Values.Displays | tuber-language/src/test/java/com/github/sobolewskikamil/tuber/language/node/type/ArrayTypeTest.java:139-151 | The printed form of an array's elements has one entry per element. |
| Values.DisplaysAt | tuber-language/src/test/java/com/github/sobolewskikamil/tuber/language/node/type/ArrayTypeTest.java:139-151 | Entry `i` of the printed elements is the printed form of element `i`, as `Arrays.deepToString` lists them. |
| Values.ValueEquals | tuber-language/src/main/java/com/github/sobolewskikamil/tuber/language/node/expression/logical/NotEqualNode.java:62-70 | `equals` is reflexive on identical values and false between values of different classes. |
| Values.ElementsEqual | tuber-language/src/test/java/com/github/sobolewskikamil/tuber/language/node/type/ArrayTypeTest.java:108-126 | Defines `Arrays.deepEquals` over two element lists: equal lengths and pairwise `equals`. `Values.ElementsEqualPairwise` proves it is exactly the position-by-position comparison, and `Values.ElementsEqualSymmetric` that it is symmetric. |
| Values.ElementsEqualPairwise | tuber-language/src/test/java/com/github/sobolewskikamil/tuber/language/node/type/ArrayTypeTest.java:108-126 | Structural array equality holds exactly when the lengths agree and every pair of elements at the same position is equal. |
| Values.SelfContainingUnbounded | tuber-language/src/main/java/com/github/sobolewskikamil/tuber/language/exception/TuberException.java:71-72 | An array that holds itself admits no depth bound, so it is exactly what the bound excludes from printing and deep comparison. |
| Values.ValueEqualsSymmetric | tuber-language/src/main/java/com/github/sobolewskikamil/tuber/language/node/expression/logical/NotEqualNode.java:62-70 | `equals` is symmetric, including through nested arrays. |
| Values.ElementsEqualSymmetric | tuber-language/src/main/java/com/github/sobolewskikamil/tuber/language/node/expression/logical/NotEqualNode.java:62-65 | Element-wise array equality is symmetric. |
| Text.Join | tuber-language/src/main/java/com/github/sobolewskikamil/tuber/language/exception/TuberException.java:61-83 | Defines what a `StringJoiner` with a separator yields: the parts with the separator between neighbours, empty for no parts. `Text.JoinSnoc` and `Errors.JoinKeepsFirst` carry its properties. |
| Text.JoinSnoc | tuber-language/src/main/java/com/github/sobolewskikamil/tuber/language/exception/TuberException.java:61-78 | Adding one more part to a non-empty joiner appends the separator and then the part. |
| Text.DecimalText | tuber-language/src/main/java/com/github/sobolewskikamil/tuber/language/exception/TuberException.java:63-64 | The decimal text of a long is non-empty and starts with '-' exactly when the number is negative. |
| Errors.NodeInfoShortName | tuber-language/src/main/java/com/github/sobolewskikamil/tuber/language/exception/TuberException.java:54-57 | Defines the `@NodeInfo` short name of each modelled node class: "+", "!=", ">=", "&&", none for the array read and the function node. `Errors.ShortNameQuoted` carries its use in messages. |
| Errors.OfError | tuber-language/src/main/java/com/github/sobolewskikamil/tuber/language/exception/TuberException.java:41-48 | `getLocation` of the built exception is exactly the node passed to `ofError`, and the exception keeps the arguments as given. |
| Errors.Describe | tuber-language/src/main/java/com/github/sobolewskikamil/tuber/language/exception/TuberException.java:62-78 | Defines how one argument is rendered: "Number", "Boolean", "String" with quotes, or "Array" before the printed value, "NULL" for the Null singleton, "ANY" for Java `null` and the plain `toString` of any other object. `Errors.DescribeValueNotEmpty` and `Errors.AllArgumentKindsMessage` carry its properties. |
| Errors.Head | tuber-language/src/main/java/com/github/sobolewskikamil/tuber/language/exception/TuberException.java:52-59 | Defines the head of a message: "Error: operation", the quoted short name when the node class has one, then " not defined". `Errors.ShortNameQuoted` and `Errors.MessageShape` carry its properties. |
| Errors.ErrorMessage | tuber-language/src/main/java/com/github/sobolewskikamil/tuber/language/exception/TuberException.java:50-86 | Defines the whole message: the head, " for " and the joined renderings when that text is not empty, then ".". `Errors.FormatErrorMessage` is proved to compute it; `Errors.ArgumentsListedInOrder`, `Errors.NoArgumentsMessage` and `Errors.MessageShape` carry its properties. |
| Errors.Descriptions | tuber-language/src/main/java/com/github/sobolewskikamil/tuber/language/exception/TuberException.java:62-78 | Each argument is rendered on its own, in the order given. |
| Errors.FormatErrorMessage | tuber-language/src/main/java/com/github/sobolewskikamil/tuber/language/exception/TuberException.java:50-86 | The StringBuilder/StringJoiner loop builds exactly the message `ErrorMessage` defines: the head, " for " and the joined operands when there are any, then ".". |
| Errors.MessageShape | tuber-language/src/main/java/com/github/sobolewskikamil/tuber/language/exception/TuberException.java:52-59 | Every message starts with "Error: operation", contains " not defined" and ends with ".". |
| Errors.ShortNameQuoted | tuber-language/src/main/java/com/github/sobolewskikamil/tuber/language/exception/TuberException.java:54-57 | When the node's class has a NodeInfo, its short name appears quoted right after "operation"; otherwise " not defined" follows directly. |
| Errors.NoArgumentsMessage | tuber-language/src/main/java/com/github/sobolewskikamil/tuber/language/exception/TuberException.java:80-85 | With no arguments the message is exactly "Error: operation not defined." or "Error: operation \"op\" not defined.". |
| Errors.DescribeValueNotEmpty | tuber-language/src/main/java/com/github/sobolewskikamil/tuber/language/exception/TuberException.java:62-72 | No runtime value is rendered as empty text. |
| Errors.ArgumentsListedInOrder | tuber-language/src/main/java/com/github/sobolewskikamil/tuber/language/exception/TuberException.java:61-83 | With two or more arguments, or one whose rendering is not empty, the message is the head, " for ", the renderings joined by ", " in the order given, and ".". |
| Errors.TwoOperandMessage | tuber-language/src/main/java/com/github/sobolewskikamil/tuber/language/exception/TuberException.java:61-85 | A binary operator's message names both operands, of any kind, left first, separated by ", ". |
| Errors.LeftOperandMessageExample | tuber-language/src/test/java/com/github/sobolewskikamil/tuber/language/node/expression/logical/OrNodeTest.java:121-131 | A `&&` error with a text left operand and a missing right one reads `Error: operation "&&" not defined for String "test", ANY.` (the `&&` counterpart of the `||` expectation). |
| Errors.RightOperandMessageExample | tuber-language/src/test/java/com/github/sobolewskikamil/tuber/language/node/expression/logical/OrNodeTest.java:134-146 | A `&&` error with a true left operand and a text right one reads `Error: operation "&&" not defined for Boolean true, String "test".` (the `&&` counterpart of the `||` expectation). |
| Errors.AllArgumentKindsMessage | tuber-language/src/test/java/com/github/sobolewskikamil/tuber/language/exception/TuberExceptionTest.java:62-74 | For the arguments 1, 1.0, true, "test", the array {1, 2.0}, the Null singleton, Java `null` and a host object printing as 1, at a node without a short name, the renderings are `Number 1`, `Number 1.0`, `Boolean true`, `String "test"`, `Array [1, 2.0]`, `NULL`, `ANY`, `1` and the message is "Error: operation not defined for " followed by them joined by ", " and ".". |
| Errors.JoinKeepsFirst | tuber-language/src/main/java/com/github/sobolewskikamil/tuber/language/exception/TuberException.java:80-83 | A join is at least as long as its first part, so a non-empty first rendering gives a non-empty joiner. |
| ExpressionNode.ExecuteVoid | tuber-language/src/main/java/com/github/sobolewskikamil/tuber/language/node/expression/ExpressionNode.java:41-44 | `executeVoid` evaluates the generic result once, keeps its state and its abrupt completion, and drops the value. |
| ExpressionNode.ExecuteTyped | tuber-language/src/main/java/com/github/sobolewskikamil/tuber/language/node/expression/ExpressionNode.java:51-73 | A typed execute returns the generic result unchanged when it has the requested kind, fails with `UnexpectedResult` carrying that result otherwise, and passes an abrupt completion through. |
| AddNode.IsAnyString | tuber-language/src/main/java/com/github/sobolewskikamil/tuber/language/node/expression/arithmetic/AddNode.java:55-57 | Defines the guard of the splicing case: either operand is text. `AddNode.TypeErrorExactly` shows how it partitions the operand pairs with the other cases. |
| AddNode.Add | tuber-language/src/main/java/com/github/sobolewskikamil/tuber/language/node/expression/arithmetic/AddNode.java:35-62 | Two longs give their exact sum, or overflow outside the long range. Two doubles give the host sum. Two arrays give left's elements then right's. A text operand splices both printed forms. Every other pair is the typed error naming "+" and both operands. |
| AddNode.Execute | tuber-language/src/main/java/com/github/sobolewskikamil/tuber/language/node/expression/arithmetic/AddNode.java:45-48 | The concatenation case allocates a fresh array holding exactly the concatenated elements; the other cases return what `Add` yields. |
| AddNode.AddNeverWraps | tuber-language/src/main/java/com/github/sobolewskikamil/tuber/language/node/expression/arithmetic/AddNode.java:35-38 | Long addition succeeds exactly when the sum is in range, and then yields the exact sum. |
| AddNode.ConcatenationLayout | tuber-language/src/main/java/com/github/sobolewskikamil/tuber/language/node/expression/arithmetic/AddNode.java:45-48 | The concatenation has length \|l\|+\|r\|, with l's elements first and r's after them. |
| AddNode.SelfContainingConcatenation | tuber-language/src/main/java/com/github/sobolewskikamil/tuber/language/node/expression/arithmetic/AddNode.java:45-48 | An array that contains itself still concatenates: the copy holds its element references twice, with no bound on nesting. |
| AddNode.MixedNumbersAreTypeErrors | tuber-language/src/main/java/com/github/sobolewskikamil/tuber/language/node/expression/arithmetic/AddNode.java:59-62 | A long and a double never add, in either order. |
| AddNode.TypeErrorExactly | tuber-language/src/main/java/com/github/sobolewskikamil/tuber/language/node/expression/arithmetic/AddNode.java:35-62 | `+` fails with the typed error exactly when the operands are not two longs, two doubles or two arrays, and neither is text. |
| AddNode.AddErrorMessage | tuber-language/src/main/java/com/github/sobolewskikamil/tuber/language/node/expression/arithmetic/AddNode.java:59-62 | The error reads `Error: operation "+" not defined for <left>, <right>.`. |
| AddNode.SpliceExample | tuber-language/src/main/java/com/github/sobolewskikamil/tuber/language/node/expression/arithmetic/AddNode.java:50-53 | `"test" + 1` is the text "test1". |
| NotEqualNode.AreDifferentClasses | tuber-language/src/main/java/com/github/sobolewskikamil/tuber/language/node/expression/logical/NotEqualNode.java:72-74 | Defines the guard of the `Objects.equals` case: the operands' classes differ. `NotEqualNode.NotEqualIsNotEquals` carries its role. |
| NotEqualNode.NotEqual | tuber-language/src/main/java/com/github/sobolewskikamil/tuber/language/node/expression/logical/NotEqualNode.java:37-79 | `!=` always completes normally. It is value inequality on longs, booleans and text, `compare != 0` on doubles, false on two Nulls, and false on an array compared with itself, and negated structural equality on two distinct arrays. Operands of different classes always give true. Only two distinct arrays need the depth bound. |
| NotEqualNode.NotEqualIsNotEquals | tuber-language/src/main/java/com/github/sobolewskikamil/tuber/language/node/expression/logical/NotEqualNode.java:37-70 | For every pair of runtime values, `!=` is the negation of `equals`. |
| NotEqualNode.NotEqualSymmetric | tuber-language/src/main/java/com/github/sobolewskikamil/tuber/language/node/expression/logical/NotEqualNode.java:37-70 | `!=` is symmetric, with the depth bound required only of two distinct arrays. |
| NotEqualNode.SelfContainingComparisons | tuber-language/src/main/java/com/github/sobolewskikamil/tuber/language/node/expression/logical/NotEqualNode.java:62-70 | An array holding itself, which no depth bound admits, is not unequal to itself, and differs from a long in either order. |
| NotEqualNode.ArraysDifferElementwise | tuber-language/src/main/java/com/github/sobolewskikamil/tuber/language/node/expression/logical/NotEqualNode.java:62-65 | Two distinct arrays differ exactly when their lengths differ or some pair of elements differs. |
| GreaterOrEqualNode.GreaterOrEqual | tuber-language/src/main/java/com/github/sobolewskikamil/tuber/language/node/expression/logical/GreaterOrEqualNode.java:33-46 | `>=` completes normally exactly on two longs or two doubles, giving `l >= r` or `compare >= 0`; every other pair is the typed error naming ">=" and both operands. |
| GreaterOrEqualNode.IntegerOrder | tuber-language/src/main/java/com/github/sobolewskikamil/tuber/language/node/expression/logical/GreaterOrEqualNode.java:33-36 | On longs, `a >= b` and `b >= a` both hold exactly when `a == b`, and at least one of them always holds. |
| GreaterOrEqualNode.MixedNumbersAreTypeErrors | tuber-language/src/main/java/com/github/sobolewskikamil/tuber/language/node/expression/logical/GreaterOrEqualNode.java:43-46 | A long and a double never compare, in either order. |
| GreaterOrEqualNode.GreaterOrEqualErrorMessage | tuber-language/src/main/java/com/github/sobolewskikamil/tuber/language/node/expression/logical/GreaterOrEqualNode.java:43-46 | The error reads `Error: operation ">=" not defined for <left>, <right>.`. |
| ShortCircuitNode.ShortCircuit | tuber-language/src/main/java/com/github/sobolewskikamil/tuber/language/node/expression/logical/ShortCircuitNode.java:47-66 | The left operand runs first. A non-boolean left value is the typed error listing it then ANY, and the right operand never runs. Without a request for the right operand, false stands in for it. Otherwise the right operand runs once, in the left's state; a non-boolean right value is the typed error listing the left boolean then that value. |
| ShortCircuitNode.ExecuteBoolean | tuber-language/src/main/java/com/github/sobolewskikamil/tuber/language/node/expression/logical/ShortCircuitNode.java:47-66 | The step-by-step `executeBoolean`, with its early error exits, computes exactly `ShortCircuit`. |
| ShortCircuitNode.ExecuteGeneric | tuber-language/src/main/java/com/github/sobolewskikamil/tuber/language/node/expression/logical/ShortCircuitNode.java:42-45 | `executeGeneric` yields exactly the boolean `executeBoolean` computes, in the same state, or its abrupt completion. |
| AndNode.ShouldEvaluateRight | tuber-language/src/main/java/com/github/sobolewskikamil/tuber/language/node/expression/logical/AndNode.java:34-37 | Defines when `&&` asks for its right operand: exactly when the left one is true. `AndNode.AndIsConditionalConjunction` carries its property. |
| AndNode.Execute | tuber-language/src/main/java/com/github/sobolewskikamil/tuber/language/node/expression/logical/AndNode.java:39-42 | Defines how `&&` combines two booleans: their conjunction. `AndNode.AndIsConditionalConjunction` carries its property. |
| AndNode.And | tuber-language/src/main/java/com/github/sobolewskikamil/tuber/language/node/expression/logical/AndNode.java:27-43 | Defines `&&` as the short-circuit connective named "&&" with the two hooks above; `AndNode.NonBooleanLeftMessage` and `AndNode.NonBooleanRightMessage` carry its error messages. |
| AndNode.AndIsConditionalConjunction | tuber-language/src/main/java/com/github/sobolewskikamil/tuber/language/node/expression/logical/AndNode.java:34-42 | With a false left operand, `&&` is false in the left's state and the right operand never runs. With a true left operand and a boolean right one, it is the right value in the right's state. |
| AndNode.NonBooleanLeftMessage | tuber-language/src/main/java/com/github/sobolewskikamil/tuber/language/node/expression/logical/ShortCircuitNode.java:50-54 | When the left operand of `&&` yields a non-boolean (the text "test"), the node raises a type error located at itself whose message is `Error: operation "&&" not defined for String "test", ANY.`. |
| AndNode.NonBooleanRightMessage | tuber-language/src/main/java/com/github/sobolewskikamil/tuber/language/node/expression/logical/ShortCircuitNode.java:56-64 | When the left operand is true and the right yields the text "test", the node raises a type error located at itself whose message is `Error: operation "&&" not defined for Boolean true, String "test".`. |
| ReadArrayElementNode.ToInt | tuber-language/src/main/java/com/github/sobolewskikamil/tuber/language/node/expression/access/ReadArrayElementNode.java:43 | The `(int)` cast lands in the int range and agrees with its input modulo 2^32. |
| ReadArrayElementNode.ToIntKeepsIntRange | tuber-language/src/main/java/com/github/sobolewskikamil/tuber/language/node/expression/access/ReadArrayElementNode.java:43 | The cast leaves a long unchanged exactly when it is already in the int range. |
| ReadArrayElementNode.ReadArrayElement | tuber-language/src/main/java/com/github/sobolewskikamil/tuber/language/node/expression/access/ReadArrayElementNode.java:39-48 | The source runs first. A non-array source is the node's typed error, and the index never runs. A non-long index gives the same error. An in-range narrowed index reads that element. An index at or past the end is the lookup failure, distinct from the typed error. An index that ends abruptly, other than by the typed-result signal, ends the read the same way. The array is only read. |
| ReadArrayElementNode.IndexNarrowingWraps | tuber-language/src/main/java/com/github/sobolewskikamil/tuber/language/node/expression/access/ReadArrayElementNode.java:43 | An index 2^32 past a valid one narrows to that index. |
| ReadArrayElementNode.ReadErrorMessage | tuber-language/src/test/java/com/github/sobolewskikamil/tuber/language/node/expression/access/ReadArrayElementNodeTest.java:86-100 | The node's typed error reads "Error: operation not defined.". |
| ArrayLiteralNode.EvaluateAll | tuber-language/src/main/java/com/github/sobolewskikamil/tuber/language/node/expression/literal/ArrayLiteralNode.java:47-50 | One value per element expression; the empty literal yields no values and leaves the state unchanged. |
| ArrayLiteralNode.EvaluateAllAppend | tuber-language/src/main/java/com/github/sobolewskikamil/tuber/language/node/expression/literal/ArrayLiteralNode.java:48-50 | Evaluating two lists of expressions one after the other is evaluating their concatenation, left to right, stopping at the first abrupt completion. |
| ArrayLiteralNode.EvaluateAllSnoc | tuber-language/src/main/java/com/github/sobolewskikamil/tuber/language/node/expression/literal/ArrayLiteralNode.java:48-50 | The last value is what the last expression yields in the state its predecessors left. |
| ArrayLiteralNode.Execute | tuber-language/src/main/java/com/github/sobolewskikamil/tuber/language/node/expression/literal/ArrayLiteralNode.java:47-52 | The loop yields a freshly allocated array whose elements are exactly the values, in order, or the first abrupt completion. |
| ArrayLiteralNode.ExecuteGeneric | tuber-language/src/main/java/com/github/sobolewskikamil/tuber/language/node/expression/literal/ArrayLiteralNode.java:37-40 | `executeGeneric` yields a fresh array value holding the evaluated elements. |
| ArrayLiteralNode.ExecuteArrayType | tuber-language/src/main/java/com/github/sobolewskikamil/tuber/language/node/expression/literal/ArrayLiteralNode.java:42-45 | `executeArrayType` yields a fresh array holding the same elements `executeGeneric` would. |
| ReadArgumentNode.ReadArgument | tuber-language/src/main/java/com/github/sobolewskikamil/tuber/language/node/expression/access/ReadArgumentNode.java:35-39 | The argument at the position when there is one, the Null singleton otherwise. |
| ReadArgumentNode.BindParameters | tuber-language/src/test/java/com/github/sobolewskikamil/tuber/language/node/expression/access/ReadArgumentNodeTest.java:40-64 | Parameters 0..n-1 read the first arguments in order, and missing ones read as Null. |
| ReadArgumentNode.SurplusArgumentsIgnored | tuber-language/src/main/java/com/github/sobolewskikamil/tuber/language/node/expression/access/ReadArgumentNode.java:35-39 | Surplus arguments are never read. |
| ReadLocalVariableNode.Boxed | tuber-language/src/main/java/com/github/sobolewskikamil/tuber/language/node/expression/access/ReadLocalVariableNode.java:57 | A slot's value as a runtime value: a long, a double or a boolean boxed, an object as stored. |
| ReadLocalVariableNode.FrameDescriptor.constructor | tuber-language/src/main/java/com/github/sobolewskikamil/tuber/language/node/expression/access/ReadLocalVariableNode.java:64-74 | The descriptor holds the given slot kinds. |
| ReadLocalVariableNode.Frame.constructor | tuber-language/src/main/java/com/github/sobolewskikamil/tuber/language/node/expression/access/ReadLocalVariableNode.java:38-62 | The frame holds the given descriptor and slots. |
| ReadLocalVariableNode.Frame.SetObject | tuber-language/src/main/java/com/github/sobolewskikamil/tuber/language/node/expression/access/ReadLocalVariableNode.java:58 | `setObject` stores the boxed value in its slot and changes no other slot. |
| ReadLocalVariableNode.ReadLong | tuber-language/src/main/java/com/github/sobolewskikamil/tuber/language/node/expression/access/ReadLocalVariableNode.java:38-41 | On a Long slot, `readLong` returns the stored long. |
| ReadLocalVariableNode.ReadDouble | tuber-language/src/main/java/com/github/sobolewskikamil/tuber/language/node/expression/access/ReadLocalVariableNode.java:43-46 | On a Double slot, `readDouble` returns the stored double. |
| ReadLocalVariableNode.ReadBoolean | tuber-language/src/main/java/com/github/sobolewskikamil/tuber/language/node/expression/access/ReadLocalVariableNode.java:48-51 | On a Boolean slot, `readBoolean` returns the stored boolean. |
| ReadLocalVariableNode.ReadObject | tuber-language/src/main/java/com/github/sobolewskikamil/tuber/language/node/expression/access/ReadLocalVariableNode.java:53-62 | `readObject` returns the slot's value, boxed or not. An unboxed slot is stored back boxed with the same value, and no other slot changes. |
| ReadLocalVariableNode.BoxingKeepsValue | tuber-language/src/main/java/com/github/sobolewskikamil/tuber/language/node/expression/access/ReadLocalVariableNode.java:55-59 | Storing a slot back boxed changes its representation, never its value. |
| ReadLocalVariableNode.Execute | tuber-language/src/main/java/com/github/sobolewskikamil/tuber/language/node/expression/access/ReadLocalVariableNode.java:38-74 | Whichever specialisation applies, the result is the slot's value, and the slots are unchanged or only the node's own slot is re-stored boxed. |
| BlockNode.RunAll | tuber-language/src/main/java/com/github/sobolewskikamil/tuber/language/node/expression/flowcontrol/BlockNode.java:44-48 | Defines running statements in order, each in the state the previous one left, stopping at the first abrupt completion. `BlockNode.RunAllAppend` and `BlockNode.AbruptStatementEndsBlock` carry its properties, and `BlockNode.BlockNode.ExecuteVoid` is proved to compute it. |
| BlockNode.RunAllAppend | tuber-language/src/main/java/com/github/sobolewskikamil/tuber/language/node/expression/flowcontrol/BlockNode.java:44-48 | Running two statement lists one after the other is running their concatenation. |
| BlockNode.AbruptStatementEndsBlock | tuber-language/src/main/java/com/github/sobolewskikamil/tuber/language/node/expression/flowcontrol/BlockNode.java:45-47 | If statement k completes abruptly after the earlier ones ran normally, the block ends with that completion and later statements never run. |
| BlockNode.NestedBlockFlattens | tuber-language/src/main/java/com/github/sobolewskikamil/tuber/language/node/expression/flowcontrol/BlockNode.java:44-48 | A block nested at the head of a block runs like the flattened block, since all statements share one frame. |
| BlockNode.BlockNode.constructor | tuber-language/src/main/java/com/github/sobolewskikamil/tuber/language/node/expression/flowcontrol/BlockNode.java:38-40 | The block holds the given statements. |
| BlockNode.BlockNode.GetStatementNodes | tuber-language/src/main/java/com/github/sobolewskikamil/tuber/language/node/expression/flowcontrol/BlockNode.java:50-52 | The statements, in construction order. |
| BlockNode.BlockNode.ExecuteVoid | tuber-language/src/main/java/com/github/sobolewskikamil/tuber/language/node/expression/flowcontrol/BlockNode.java:44-48 | The for-loop computes `RunAll`: each statement once, in order, in the state the previous one left; an empty block changes nothing. |
| WhileNode.Step | tuber-language/src/test/java/com/github/sobolewskikamil/tuber/language/node/expression/flowcontrol/WhileRepeatingNodeTest.java:56-122 | One step of the loop. A false condition stops without running the body. A true one runs the body once and goes on, also after `continue`. `break` stops. Any other signal propagates. A non-boolean condition fails as unsupported, carrying its value. |
| WhileNode.Loop | tuber-language/src/main/java/com/github/sobolewskikamil/tuber/language/node/expression/flowcontrol/WhileNode.java:40-43 | Defines the repeated steps of `LoopNode.executeLoop` over at most `fuel` steps. `WhileNode.StopsAfterSteps`, `WhileNode.FuelOnlyBounds`, `WhileNode.BreakEndsLoop` and `WhileNode.ContinueRechecksCondition` carry its properties. |
| WhileNode.ExecuteVoid | tuber-language/src/main/java/com/github/sobolewskikamil/tuber/language/node/expression/flowcontrol/WhileNode.java:40-43 | The loop computes exactly `Loop`: steps until one says stop or raises, within the bound. |
| WhileNode.StopsAfterSteps | tuber-language/src/test/java/com/github/sobolewskikamil/tuber/language/node/expression/flowcontrol/WhileNodeTest.java:55-67 | If n steps go on and the next one stops, the loop finishes normally after exactly those steps, whatever larger bound it has. |
| WhileNode.FuelOnlyBounds | tuber-language/src/main/java/com/github/sobolewskikamil/tuber/language/node/expression/flowcontrol/WhileNode.java:40-43 | A bound large enough to finish gives the same result as any larger bound. |
| WhileNode.FalseConditionSkipsBody | tuber-language/src/test/java/com/github/sobolewskikamil/tuber/language/node/expression/flowcontrol/WhileRepeatingNodeTest.java:56-66 | A false condition ends the loop in the condition's state, and the body never runs. |
| WhileNode.BreakEndsLoop | tuber-language/src/test/java/com/github/sobolewskikamil/tuber/language/node/expression/flowcontrol/WhileNodeTest.java:88-105 | `break` ends the loop at once, in the body's state, without checking the condition again. |
| WhileNode.ContinueRechecksCondition | tuber-language/src/test/java/com/github/sobolewskikamil/tuber/language/node/expression/flowcontrol/WhileNodeTest.java:69-86 | `continue` ends only the current step; the loop goes on from the body's state. |
| WhileNode.NonBooleanConditionUnsupported | tuber-language/src/test/java/com/github/sobolewskikamil/tuber/language/node/expression/flowcontrol/WhileRepeatingNodeTest.java:110-122 | A non-boolean condition ends the loop with the unsupported error carrying the value. |
| WhileNode.OtherSignalsPropagate | tuber-language/src/main/java/com/github/sobolewskikamil/tuber/language/node/expression/flowcontrol/WhileNode.java:40-43 | Any other abrupt completion of the body, such as `return` or a typed error, leaves the loop unchanged. |
| WhileNode.FiveIterations | tuber-language/src/test/java/com/github/sobolewskikamil/tuber/language/node/expression/flowcontrol/WhileNodeTest.java:55-67 | Five true conditions and then a false one run the body five times. |
| WhileNode.FiveIterationsWithContinue | tuber-language/src/test/java/com/github/sobolewskikamil/tuber/language/node/expression/flowcontrol/WhileNodeTest.java:69-86 | A `continue` leaves the body's five runs unchanged. |
| WhileNode.TwoIterationsWithBreak | tuber-language/src/test/java/com/github/sobolewskikamil/tuber/language/node/expression/flowcontrol/WhileNodeTest.java:88-105 | A `break` in the second step stops the loop after two runs of the body, not five. |
| FunctionRegistry.FunctionRegistry.constructor | tuber-language/src/test/java/com/github/sobolewskikamil/tuber/language/runtime/FunctionRegistryTest.java:43-51 | A new registry is empty. |
| FunctionRegistry.FunctionRegistry.Lookup | tuber-language/src/test/java/com/github/sobolewskikamil/tuber/language/runtime/FunctionRegistryTest.java:43-64 | A lookup is present exactly for a registered name, and gives its target. |
| FunctionRegistry.FunctionRegistry.Register | tuber-language/src/test/java/com/github/sobolewskikamil/tuber/language/runtime/FunctionRegistryTest.java:52-64 | After registering, the name resolves to the target and every other name is unchanged. |
| FunctionRegistry.FunctionRegistry.RegisterAll | tuber-language/src/test/java/com/github/sobolewskikamil/tuber/language/runtime/FunctionRegistryTest.java:65-83 | Every added entry is registered, replacing an earlier entry with the same name. |
| FunctionNode.ExecuteGeneric | tuber-language/src/main/java/com/github/sobolewskikamil/tuber/language/node/expression/flowcontrol/FunctionNode.java:43-47 | The node yields the target registered under its name exactly when there is one, and otherwise its own typed error; the registry is only read. |
| FunctionNode.LookupErrorMessage | tuber-language/src/test/java/com/github/sobolewskikamil/tuber/language/node/expression/flowcontrol/FunctionNodeTest.java:65-78 | The error points at the node and reads "Error: operation not defined.". |
| FunctionNode.ResolvesLaterRegistration | tuber-language/src/main/java/com/github/sobolewskikamil/tuber/language/node/expression/flowcontrol/FunctionNode.java:44-46 | The lookup happens when the node runs, so a function registered after the node was built resolves. |
| EvalRootNode.Parse | tuber-language/src/main/java/com/github/sobolewskikamil/tuber/language/Language.java:49-58 | A program is built exactly when a function named "main" exists; otherwise parsing fails with "Main method missing". |
| EvalRootNode.EvalRootNode.constructor | tuber-language/src/main/java/com/github/sobolewskikamil/tuber/language/node/EvalRootNode.java:44-49 | The root holds the parsed functions, the registry and main's target, and has not registered yet. |
| EvalRootNode.EvalRootNode.Execute | tuber-language/src/main/java/com/github/sobolewskikamil/tuber/language/node/EvalRootNode.java:51-59 | The first execution registers every parsed function and later ones do not. After it, every parsed function resolves. `main` is called with no arguments and its result is returned. |
| EvalRootNode.EvalRootNode.FirstExecution | tuber-language/src/main/java/com/github/sobolewskikamil/tuber/language/node/EvalRootNode.java:53-58 | The first execution registers all functions, `main` included, before `main` is called. |
| EvalRootNode.EvalRootNode.RepeatedExecution | tuber-language/src/main/java/com/github/sobolewskikamil/tuber/language/node/EvalRootNode.java:53-57 | Registration happens at most once over repeated executions. |
| TuberNodeGeneratingVisitor.FindOrAddFrameSlot | tuber-language/src/main/java/com/github/sobolewskikamil/tuber/language/parser/TuberNodeGeneratingVisitor.java:253 | The slot found names the identifier. An existing slot is reused without changing the table; otherwise a new slot is appended at the end. |
| TuberNodeGeneratingVisitor.LongValueOf | tuber-language/src/main/java/com/github/sobolewskikamil/tuber/language/parser/TuberNodeGeneratingVisitor.java:414-416 | The text of a long token has a value exactly when it is non-empty decimal digits no larger than the long maximum, and that value is the number the digits spell. |
| TuberNodeGeneratingVisitor.WithoutQuotes | tuber-language/src/main/java/com/github/sobolewskikamil/tuber/language/parser/TuberNodeGeneratingVisitor.java:410-413 | Dropping the quotes succeeds exactly on text of length two or more, and drops exactly the first and last character. |
| TuberNodeGeneratingVisitor.BooleanValueOf | tuber-language/src/main/java/com/github/sobolewskikamil/tuber/language/parser/TuberNodeGeneratingVisitor.java:408 | Defines `Boolean.valueOf`: true exactly for "true" in any letter case. It is used by `TuberNodeGeneratingVisitor.VisitLiteral`. |
| TuberNodeGeneratingVisitor.VisitLiteral | tuber-language/src/main/java/com/github/sobolewskikamil/tuber/language/parser/TuberNodeGeneratingVisitor.java:397-421 | An unrecognised literal fails with "Unknown literal", and only such a literal does. An identifier reads its slot. `null` builds the null literal, a boolean the `Boolean.valueOf` of its text, a double its text. A text literal loses its quotes; one shorter than two characters fails with `StringIndexOutOfBounds`. A long literal builds the number its digits spell when that is a long, and fails with `NumberFormat` otherwise. |
| TuberNodeGeneratingVisitor.TextLiteralRoundTrip | tuber-language/src/test/java/com/github/sobolewskikamil/tuber/language/parser/TuberNodeGeneratingVisitorTest.java:135-146 | A quoted text lowers to exactly the text between the quotes. |
| TuberNodeGeneratingVisitor.LongLiteralRoundTrip | tuber-language/src/main/java/com/github/sobolewskikamil/tuber/language/parser/TuberNodeGeneratingVisitor.java:414-416 | The decimal text of a non-negative long reads back as that long. |
| TuberNodeGeneratingVisitor.VisitExpression | tuber-language/src/main/java/com/github/sobolewskikamil/tuber/language/parser/TuberNodeGeneratingVisitor.java:277-372 | Defines `visitExpression` with the array, array-element and literal cases it delegates to. `TuberNodeGeneratingVisitor.ThreeIndexRead`, `TuberNodeGeneratingVisitor.UnknownConstructsFail` and `TuberNodeGeneratingVisitor.FailingOperandFailsExpression` carry its properties. |
| TuberNodeGeneratingVisitor.VisitExpressions | tuber-language/src/main/java/com/github/sobolewskikamil/tuber/language/parser/TuberNodeGeneratingVisitor.java:377-380 | A list of expressions builds to one node per expression. |
| TuberNodeGeneratingVisitor.VisitExpressionsPointwise | tuber-language/src/main/java/com/github/sobolewskikamil/tuber/language/parser/TuberNodeGeneratingVisitor.java:390-393 | When every expression builds, the list builds to those nodes, in order. |
| TuberNodeGeneratingVisitor.NestedWrite | tuber-language/src/main/java/com/github/sobolewskikamil/tuber/language/parser/TuberNodeGeneratingVisitor.java:447-455 | The write fails exactly when there is no index, since `remove` on the empty queue throws. |
| TuberNodeGeneratingVisitor.NestedReads | tuber-language/src/main/java/com/github/sobolewskikamil/tuber/language/parser/TuberNodeGeneratingVisitor.java:438-445 | Defines `getReadArrayElementNode`: each index in turn wraps the reads so far. `TuberNodeGeneratingVisitor.NestedReadsSnoc` carries its properties. |
| TuberNodeGeneratingVisitor.NestedReadsSnoc | tuber-language/src/main/java/com/github/sobolewskikamil/tuber/language/parser/TuberNodeGeneratingVisitor.java:438-445 | `a[e1]..[en]` reads at en around the reads over e1..e(n-1), so e1 is innermost. |
| TuberNodeGeneratingVisitor.NestedWriteWrapsReads | tuber-language/src/main/java/com/github/sobolewskikamil/tuber/language/parser/TuberNodeGeneratingVisitor.java:447-455 | `a[e1]..[en] = v` writes at en into the nested reads over e1..e(n-1). |
| TuberNodeGeneratingVisitor.ThreeIndexRead | tuber-language/src/test/java/com/github/sobolewskikamil/tuber/language/parser/TuberNodeGeneratingVisitorTest.java:822-846 | `a[0][1][2]` lowers to element 2 of element 1 of element 0 of `a`'s slot. |
| TuberNodeGeneratingVisitor.LowerStatement | tuber-language/src/main/java/com/github/sobolewskikamil/tuber/language/parser/TuberNodeGeneratingVisitor.java:121-275 | Defines the visit of one statement in the scope the earlier statements left: assignments, directly or inside a loop or conditional body, find or add their slot before their value is visited; no other statement changes the scope. `TuberNodeGeneratingVisitor.LowerStatementKeepsScope`, `TuberNodeGeneratingVisitor.AssignmentSlotBeforeValue`, `TuberNodeGeneratingVisitor.FailingExpressionFailsStatement` and `TuberNodeGeneratingVisitor.UnknownConstructsFail` carry its properties. |
| TuberNodeGeneratingVisitor.LowerStatements | tuber-language/src/main/java/com/github/sobolewskikamil/tuber/language/parser/TuberNodeGeneratingVisitor.java:425-428 | Defines the stream map over a block's statements, each visited in the scope the previous one left, the first failure stopping the list; its own contract gives one node per statement, and `TuberNodeGeneratingVisitor.LowerStatementsSnoc` states how each further statement extends the nodes, the scope and the failure. |
| TuberNodeGeneratingVisitor.LowerStatementsSnoc | tuber-language/src/main/java/com/github/sobolewskikamil/tuber/language/parser/TuberNodeGeneratingVisitor.java:425-428 | One more statement: a failed prefix fails the list unchanged; otherwise the statement is visited in the scope the prefix left, and its node follows the prefix's nodes or its failure fails the list. |
| TuberNodeGeneratingVisitor.BindParameters | tuber-language/src/main/java/com/github/sobolewskikamil/tuber/language/parser/TuberNodeGeneratingVisitor.java:96-109 | One binding per parameter, and binding i writes argument i. |
| TuberNodeGeneratingVisitor.AssignSlot | tuber-language/src/main/java/com/github/sobolewskikamil/tuber/language/parser/TuberNodeGeneratingVisitor.java:251-254 | Defines finding or adding the frame slot of a name and recording it in the lexical scope. `TuberNodeGeneratingVisitor.AssignSlotKeepsScope` carries its properties. |
| TuberNodeGeneratingVisitor.AssignSlotKeepsScope | tuber-language/src/main/java/com/github/sobolewskikamil/tuber/language/parser/TuberNodeGeneratingVisitor.java:250-257 | Assigning keeps the scope consistent and only extends it. The name maps to its slot. A known name changes nothing; a new name gets the next slot. |
| TuberNodeGeneratingVisitor.LowerStatementKeepsScope | tuber-language/src/main/java/com/github/sobolewskikamil/tuber/language/parser/TuberNodeGeneratingVisitor.java:150-257 | Visiting a statement keeps the scope consistent and never changes an existing slot. |
| TuberNodeGeneratingVisitor.LowerStatementsKeepScope | tuber-language/src/main/java/com/github/sobolewskikamil/tuber/language/parser/TuberNodeGeneratingVisitor.java:425-428 | The same holds for a statement list. |
| TuberNodeGeneratingVisitor.ParameterSlots | tuber-language/src/main/java/com/github/sobolewskikamil/tuber/language/parser/TuberNodeGeneratingVisitor.java:99-104 | In a fresh scope, distinct parameters take slots 0..n-1 in declaration order, and nothing else is in scope. |
| TuberNodeGeneratingVisitor.ParametersTakeFirstSlots | tuber-language/src/main/java/com/github/sobolewskikamil/tuber/language/parser/TuberNodeGeneratingVisitor.java:99-105 | Binding i of distinct parameters writes argument i into slot i. |
| TuberNodeGeneratingVisitor.FunctionBody | tuber-language/src/main/java/com/github/sobolewskikamil/tuber/language/parser/TuberNodeGeneratingVisitor.java:423-436 | Defines `getFunctionBodyBlockNode`: the parameter bindings, when there are parameters, then the body statements, as one block. `TuberNodeGeneratingVisitor.DeclarationBindsParametersFirst` carries its properties. |
| TuberNodeGeneratingVisitor.DeclareFunction | tuber-language/src/main/java/com/github/sobolewskikamil/tuber/language/parser/TuberNodeGeneratingVisitor.java:79-94 | Defines the body block of a declaration, visited from a fresh scope and descriptor. `TuberNodeGeneratingVisitor.DeclarationBindsParametersFirst` and `TuberNodeGeneratingVisitor.DeclarationExample` carry its properties. |
| TuberNodeGeneratingVisitor.DeclarationBindsParametersFirst | tuber-language/src/main/java/com/github/sobolewskikamil/tuber/language/parser/TuberNodeGeneratingVisitor.java:423-436 | A function body is the parameter writes, argument i to slot i, followed by the body statements visited in the scope holding the parameters; the parameters head the slot table. |
| TuberNodeGeneratingVisitor.AssignmentSlotBeforeValue | tuber-language/src/main/java/com/github/sobolewskikamil/tuber/language/parser/TuberNodeGeneratingVisitor.java:253-255 | The slot is added before the value is visited, so `x = x` reads the slot it writes. |
| TuberNodeGeneratingVisitor.DeclarationExample | tuber-language/src/test/java/com/github/sobolewskikamil/tuber/language/parser/TuberNodeGeneratingVisitorTest.java:1457-1539 | `def fun(a, b) { c = 5; }` gives slots a, b, c, two parameter writes and then the assignment. |
| TuberNodeGeneratingVisitor.UnknownLiteralMessage | tuber-language/src/main/java/com/github/sobolewskikamil/tuber/language/parser/TuberNodeGeneratingVisitor.java:420 | An unrecognised literal fails with "Unknown literal: " followed by its text. |
| TuberNodeGeneratingVisitor.UnknownConstructsFail | tuber-language/src/main/java/com/github/sobolewskikamil/tuber/language/parser/TuberNodeGeneratingVisitor.java:150-163 | An unrecognised expression fails with "Unknown expression: <text>" (java:371), and an unrecognised statement with "Unknown statement: <text>". |
| TuberNodeGeneratingVisitor.FirstFailingExpression | tuber-language/src/main/java/com/github/sobolewskikamil/tuber/language/parser/TuberNodeGeneratingVisitor.java:113-117 | In a list of expressions visited in order, the first one that fails fails the list with its error, whatever follows. |
| TuberNodeGeneratingVisitor.FailingExpressionFailsStatement | tuber-language/src/main/java/com/github/sobolewskikamil/tuber/language/parser/TuberNodeGeneratingVisitor.java:251-275 | A failing expression fails the statement holding it with the same error: an assignment's value (after the slot is added), an element assignment's element and then its indexes, a call's arguments, a return value, and a loop's or branch's condition. |
| TuberNodeGeneratingVisitor.FailingOperandFailsExpression | tuber-language/src/main/java/com/github/sobolewskikamil/tuber/language/parser/TuberNodeGeneratingVisitor.java:278-372 | A failing operand fails the enclosing expression with the same error, the left operand of a binary operator first; a parenthesised expression is its inner expression. |
| TuberNodeGeneratingVisitor.TuberNodeGeneratingVisitor.constructor | tuber-language/src/main/java/com/github/sobolewskikamil/tuber/language/parser/TuberNodeGeneratingVisitor.java:59-64 | The visitor starts with no functions and outside any declaration. |
| TuberNodeGeneratingVisitor.TuberNodeGeneratingVisitor.VisitVariableAssignment | tuber-language/src/main/java/com/github/sobolewskikamil/tuber/language/parser/TuberNodeGeneratingVisitor.java:250-257 | It updates the scope fields and returns exactly what `LowerStatement` gives for the assignment. |
| TuberNodeGeneratingVisitor.TuberNodeGeneratingVisitor.VisitStatement | tuber-language/src/main/java/com/github/sobolewskikamil/tuber/language/parser/TuberNodeGeneratingVisitor.java:121-275 | Visiting one statement yields the node and scope `LowerStatement` defines; the functions are unchanged. |
| TuberNodeGeneratingVisitor.TuberNodeGeneratingVisitor.VisitStatements | tuber-language/src/main/java/com/github/sobolewskikamil/tuber/language/parser/TuberNodeGeneratingVisitor.java:426-428 | The loop over the statements yields the node and scope `LowerStatements` defines. |
| TuberNodeGeneratingVisitor.TuberNodeGeneratingVisitor.VisitIdList | tuber-language/src/main/java/com/github/sobolewskikamil/tuber/language/parser/TuberNodeGeneratingVisitor.java:96-109 | The loop yields a block of exactly the `BindParameters` bindings, and leaves its scope in the fields. |
| TuberNodeGeneratingVisitor.TuberNodeGeneratingVisitor.GetFunctionBodyBlockNode | tuber-language/src/main/java/com/github/sobolewskikamil/tuber/language/parser/TuberNodeGeneratingVisitor.java:423-436 | It yields the body block and scope `FunctionBody` defines. |
| TuberNodeGeneratingVisitor.TuberNodeGeneratingVisitor.VisitFunctionDeclaration | tuber-language/src/main/java/com/github/sobolewskikamil/tuber/language/parser/TuberNodeGeneratingVisitor.java:78-94 | It starts from a fresh scope and slot table and yields `DeclareFunction`'s block. On success it stores the function under its name with its slot table, and clears both fields. |

## Left out

- **The Truffle machinery.** Left out: specialisation rewriting, the DSL
  guards as a mechanism, `ConditionProfile`, `@ExplodeLoop`, `LoopNode`,
  call-target creation and deep copies, and instrumentation wrappers. None
  of them changes what a node computes. The order of each operator's cases
  is kept.
- **Doubles.** `Double.sum`, `Double.compare` and `Double.toString` are host
  primitives passed in a `Host` record; IEEE-754 semantics are not modelled.
  `NotEqualNode.NotEqualIsNotEquals` assumes that `Double.compare` is 0
  exactly on equal bit patterns.
- **Cyclic arrays.** An array that contains itself makes `toString` loop in
  the host, and `equals` loop when it compares two distinct arrays that reach
  a cycle; `equals` against itself or against a value of another class
  returns at once. Printing, comparing two distinct arrays, text splicing in
  `+` and the concrete message lemmas are modelled under a depth bound
  (`Values.Nested`), which excludes such arrays
  (`Values.SelfContainingUnbounded`). `!=` on an array and itself or a value
  of another class, array concatenation in `+` and reading an element need
  no bound and accept them. Raising a typed
  error is not bounded: the model raises it with any operands, while the
  host formats the message when the exception is built and overflows its
  stack on a self-containing array operand.
- `NotEqualNode.NotEqualIsNotEquals`: stated for operands under the depth
  bound, because the structural equality it relates `!=` to is defined
  only there.
- `AddNode.Add`: for a pair that reaches the typed-error fallback and holds
  a self-containing array, the model raises the typed error where the host
  overflows its stack formatting the message.
- `GreaterOrEqualNode.GreaterOrEqual`: the same as for `AddNode.Add`; a
  self-containing array operand gives the typed error in the model and a
  stack overflow in the host.
- `ShortCircuitNode.ShortCircuit`: a non-boolean operand that is a
  self-containing array gives the typed error in the model and a stack
  overflow in the host.
- `ShortCircuitNode.ExecuteBoolean`: the same as for
  `ShortCircuitNode.ShortCircuit`, which it computes.
- **Negative index.** The source of `ArrayType.get` is not part of this
  model; `Values.ArrayType.Get` follows `ArrayTypeTest`, which uses only
  non-negative indexes. `Get` takes a `nat`, so in
  `ReadArrayElementNode.ReadArrayElement` a negative narrowed index ends in
  `HostFailure`, a failure distinct from the typed error. The model says
  nothing more about it.
- **The `NotEqualNode` fallback.** The typed-error fallback is kept in
  `NotEqualNode.NotEqual`, but no pair of the six runtime kinds reaches it.
- **Side effects of children.** Children's effects are the abstract state `S`
  they pass along. Allocation on the Dafny heap inside a child is not
  modelled.
- **Abrupt completions.** `UnexpectedResultException` from a child's own
  typed execute is assumed not to reach a node that did not ask for a typed
  value.
- **`OrNode`.** It and the remaining operator nodes (`-`, `*`, `/`, `%`,
  `^`, `==`, `<`, `<=`, `>`, `||`, `!`) are not part of this model; `&&`
  shows the short-circuit protocol.
- **Unshown collaborators.** The write nodes, `CallNode`, `FunctionBodyNode`,
  `ReturnNode`, `IfNode`, `LexicalScope` and `WhileRepeatingNode` are not
  part of this model. Their behaviour is modelled only as far as their tests
  fix it: `WhileNode.Step` follows `WhileRepeatingNodeTest`, and the
  registry follows `FunctionRegistryTest`.
- `WhileNode.ExecuteVoid`: the host loop may run forever. The model runs at
  most `fuel` steps and reports `OutOfFuel` when the bound is reached first;
  `WhileNode.FuelOnlyBounds` shows that the bound never changes a finished
  result.
- **Frame slots.** An uninitialised frame slot is not modelled. The typed
  reads require a slot of the matching kind, as the DSL guards ensure.
- **Built-ins and I/O.** The `Context` built-ins (`println`, `readln`,
  `array`, `length`, `currentTimeMillis`), console I/O and the clock are not
  modelled. The registry starts empty.
- **Parsing.** ANTLR parsing, `Language` registration and `RootNode` are not
  part of this model. Only the "Main method missing" check is kept, as
  `EvalRootNode.Parse`.
- **Parse-tree shape.** The parse tree is a small datatype. Its iteration and
  non-iteration statement kinds are merged, so only "Unknown statement" is
  modelled. The "Unknown non iteration statement", "Unknown iteration
  statement" and "Unknown assignment" messages are not distinguished.
- **Literal texts.** The lexer's token shapes are not modelled:
  - a long literal's text is taken to be digits; a value past the long range
    is a `NumberFormat` failure;
  - a double literal is kept as its text;
  - a text literal shorter than two characters is a `StringIndexOutOfBounds`
    failure;
  - `Boolean.valueOf` is true exactly for "true" in any letter case.
- `TuberNodeGeneratingVisitor.VisitLiteral`: an unknown identifier gives an
  absent slot, as the Java lookup gives `null`. What the read node later
  does with it is not modelled.
- **The visitor's second constructor.** The one taking scope and descriptor
  suppliers exists for tests and is not modelled.
- **Visit order.** In an array-element assignment the element is visited
  before the indexes, as in the source.
- **Index queues.** `getReadArrayElementNode` and `getWriteArrayElementNode`
  consume a local queue that nothing else sees. They are modelled as
  recursive functions over the index list.
- **Duplicate parameters.** Duplicate parameter names share one slot, as
  `findOrAddFrameSlot` gives. The parameter lemmas assume distinct names.
