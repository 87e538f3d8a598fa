/**
 * The two trees the node-generating visitor connects: the parse tree the
 * grammar produces (only the shapes the visitor distinguishes) and the node
 * tree it builds.
 */
module Syntax {
  import opened Values

  /** Which token a `literal` parse node holds. */
  datatype LiteralToken = IdentifierToken | NullToken | BoolToken | StringToken | LongToken | DoubleToken | NoToken

  datatype PLiteral = PLiteral(token: LiteralToken, text: string)

  datatype BinaryOperator =
    | Add | Subtract | Divide | Multiply | Modulus | Exp
    | Equal | NotEqual | GreaterOrEqual | LessOrEqual | Greater | Less
    | And | Or

  /** An `expression` parse node; `PUnknownExpression` is one the visitor does not recognise. */
  datatype PExpr =
    | PParen(inner: PExpr)
    | PLit(literal: PLiteral)
    | PCall(callee: string, arguments: seq<PExpr>)
    | PArray(elements: seq<PExpr>)       // empty for `{}`, which has no expression list
    | PArrayElement(identifier: string, indexes: seq<PExpr>)
    | PBinary(op: BinaryOperator, left: PExpr, right: PExpr)
    | PNot(operand: PExpr)
    | PUnknownExpression(text: string)

  /** A statement parse node, iteration and non-iteration statements together. */
  datatype PStatement =
    | PVariableAssignment(target: string, value: PExpr)
    | PArrayElementAssignment(identifier: string, indexes: seq<PExpr>, element: PExpr)
    | PCallStatement(callee: string, arguments: seq<PExpr>)
    | PReturn(result: PExpr)
    | PWhile(condition: PExpr, body: seq<PStatement>)
    | PIf(condition: PExpr, thenBranch: seq<PStatement>)
    | PIfElse(condition: PExpr, thenBranch: seq<PStatement>, elseBranch: seq<PStatement>)
    | PBreak
    | PContinue
    | PUnknownStatement(text: string)

  /** Expression nodes. A slot is the index of a frame slot; `None` is a name with no slot (a `null` slot). */
  datatype Expr =
    | ReadLocalVariable(slot: Option<nat>)
    | ReadArgument(position: nat)
    | NullLiteral
    | BooleanLiteral(b: bool)
    | StringLiteral(s: string)
    | LongLiteral(n: Long)
    | DoubleLiteral(text: string)      // the double `Double.valueOf` reads from the text
    | Call(callee: string, arguments: seq<Expr>)
    | ArrayLiteral(elements: seq<Expr>)
    | ReadArrayElement(source: Expr, index: Expr)
    | Binary(op: BinaryOperator, left: Expr, right: Expr)
    | Not(operand: Expr)

  /** Statement nodes. */
  datatype Stmt =
    | WriteLocalVariable(value: Expr, slot: nat)
    | WriteArrayElement(target: Expr, index: Expr, element: Expr)
    | Evaluate(expression: Expr)
    | Return(result: Expr)
    | While(condition: Expr, body: Stmt)
    | If(condition: Expr, thenBranch: Stmt, elseBranch: Option<Stmt>)
    | Break
    | Continue
    | Block(statements: seq<Stmt>)

  /** Why building stops: an `IllegalStateException` of the visitor or a failure of a host routine it calls. */
  datatype BuildError =
    | Unknown(kind: string, text: string)  // "Unknown <kind>: <text>"
    | NumberFormat(text: string)           // `Long.valueOf` refused the text
    | StringIndexOutOfBounds(text: string) // a text literal too short to hold its quotes
    | NoSuchElement                        // `remove` on an empty index queue

  datatype Lowered<T> = Built(node: T) | Failed(error: BuildError)

  /** The message of an unrecognised parse node. */
  function UnknownMessage(kind: string, text: string): string
  {
    "Unknown " + kind + ": " + text
  }
}
