/**
 * `TuberNodeGeneratingVisitor`: builds the node tree from the parse tree.
 * Every function declaration gets a fresh lexical scope (identifier to slot)
 * and a fresh frame descriptor (the slot table); parameters are bound to the
 * first argument positions, assignments find or add their slot, and chained
 * indices lower to nested element reads, with a final write for assignment.
 */
module TuberNodeGeneratingVisitor {
  import opened Values
  import opened Syntax
  import Text

  /** The lexical scope's locals and the frame descriptor's slots (identifiers in order of addition). */
  datatype Scope = Scope(locals: map<string, nat>, slots: seq<string>)

  const FreshScope: Scope := Scope(map[], [])

  /** The first position of `identifier` in the slot table. */
  function FirstIndex(slots: seq<string>, identifier: string): (i: nat)
    requires identifier in slots
    ensures i < |slots| && slots[i] == identifier
    ensures forall j :: 0 <= j < i ==> slots[j] != identifier
  {
    if slots[0] == identifier then 0 else 1 + FirstIndex(slots[1..], identifier)
  }

  /** `FrameDescriptor.findOrAddFrameSlot`: the slot named `identifier`, appended when there is none. */
  function FindOrAddFrameSlot(slots: seq<string>, identifier: string): (r: (nat, seq<string>))
    ensures r.0 < |r.1| && r.1[r.0] == identifier
    ensures identifier in slots ==> r.1 == slots
    ensures identifier !in slots ==> r.1 == slots + [identifier] && r.0 == |slots|
  {
    if identifier in slots then (FirstIndex(slots, identifier), slots) else (|slots|, slots + [identifier])
  }

  /** Find or add the slot of `identifier` and record it in the scope (`addLocal`). */
  function AssignSlot(scope: Scope, identifier: string): (r: (nat, Scope))
  {
    var found := FindOrAddFrameSlot(scope.slots, identifier);
    (found.0, Scope(scope.locals[identifier := found.0], found.1))
  }

  /** `getLocals().get(identifier)`: the slot recorded for a name, or none. */
  function LocalSlot(locals: map<string, nat>, identifier: string): Option<nat>
  {
    if identifier in locals then Some(locals[identifier]) else None
  }

  // ---------------------------------------------------------------- literals

  function LowerAscii(c: char): char
  {
    if 'A' <= c <= 'Z' then (c as int + 32) as char else c
  }

  /** `Boolean.valueOf`: true exactly for "true" in any letter case. */
  function BooleanValueOf(text: string): (b: bool)
  {
    |text| == 4 && forall i :: 0 <= i < 4 ==> LowerAscii(text[i]) == "true"[i]
  }

  predicate AllDigits(text: string)
  {
    forall i :: 0 <= i < |text| ==> '0' <= text[i] <= '9'
  }

  /** The number a digit string denotes. */
  function DigitsValue(text: string): nat
    requires AllDigits(text)
    decreases |text|
  {
    if text == [] then 0
    else DigitsValue(text[..|text| - 1]) * 10 + (text[|text| - 1] as int - '0' as int)
  }

  /** `Long.valueOf` on the text of a long token: its value, or a failure when it exceeds a long. */
  function LongValueOf(text: string): (r: Option<Long>)
    ensures r.Some? <==> |text| > 0 && AllDigits(text) && DigitsValue(text) <= MaxLong
    ensures r.Some? ==> r.value == DigitsValue(text)
  {
    if |text| > 0 && AllDigits(text) && DigitsValue(text) <= MaxLong then Some(DigitsValue(text)) else None
  }

  /** The text between the quotes of a text literal. */
  function WithoutQuotes(text: string): (r: Option<string>)
    ensures r.Some? <==> |text| >= 2
    ensures r.Some? ==> |r.value| == |text| - 2 && forall i :: 0 <= i < |r.value| ==> r.value[i] == text[i + 1]
  {
    if |text| >= 2 then Some(text[1..|text| - 1]) else None
  }

  /** `visitLiteral`. */
  function VisitLiteral(locals: map<string, nat>, literal: PLiteral): (r: Lowered<Expr>)
    ensures literal.token == NoToken <==> r == Failed(Unknown("literal", literal.text))
    ensures literal.token == IdentifierToken ==> r == Built(ReadLocalVariable(LocalSlot(locals, literal.text)))
    ensures literal.token == StringToken && |literal.text| >= 2 ==>
      r == Built(StringLiteral(literal.text[1..|literal.text| - 1]))
    ensures literal.token == NullToken ==> r == Built(NullLiteral)
    ensures literal.token == BoolToken ==> r == Built(BooleanLiteral(BooleanValueOf(literal.text)))
    ensures literal.token == DoubleToken ==> r == Built(DoubleLiteral(literal.text))
    ensures literal.token == StringToken && |literal.text| < 2 ==>
      r == Failed(StringIndexOutOfBounds(literal.text))
    ensures literal.token == LongToken ==>
      r == (if LongValueOf(literal.text).Some? then Built(LongLiteral(LongValueOf(literal.text).value))
            else Failed(NumberFormat(literal.text)))
  {
    var text := literal.text;
    match literal.token
    case IdentifierToken => Built(ReadLocalVariable(LocalSlot(locals, text)))
    case NullToken => Built(NullLiteral)
    case BoolToken => Built(BooleanLiteral(BooleanValueOf(text)))
    case StringToken =>
      (match WithoutQuotes(text)
       case Some(s) => Built(StringLiteral(s))
       case None => Failed(StringIndexOutOfBounds(text)))
    case LongToken =>
      (match LongValueOf(text)
       case Some(n) => Built(LongLiteral(n))
       case None => Failed(NumberFormat(text)))
    case DoubleToken => Built(DoubleLiteral(text))
    case NoToken => Failed(Unknown("literal", text))
  }

  /** A text literal loses exactly its two quotes: what was quoted comes back. */
  lemma TextLiteralRoundTrip(locals: map<string, nat>, s: string)
    ensures VisitLiteral(locals, PLiteral(StringToken, "\"" + s + "\"")) == Built(StringLiteral(s))
  {
    var text := "\"" + s + "\"";
    assert text[1..|text| - 1] == s;
  }

  /** The decimal text of a non-negative long reads back as that long. */
  lemma LongLiteralRoundTrip(n: int)
    requires 0 <= n <= MaxLong
    ensures LongValueOf(Text.DecimalText(n)) == Some(n)
  {
    NatTextValue(n);
  }

  lemma {:induction false} NatTextValue(n: nat)
    ensures AllDigits(Text.NatText(n)) && DigitsValue(Text.NatText(n)) == n
    decreases n
  {
    var t := Text.NatText(n);
    if n < 10 {
      DigitValue(n);
    } else {
      NatTextValue(n / 10);
      DigitValue(n % 10);
      assert t[..|t| - 1] == Text.NatText(n / 10);
    }
  }

  lemma DigitValue(d: nat)
    requires d < 10
    ensures Text.DigitChar(d) as int - '0' as int == d
  {
    if d == 0 {} else if d == 1 {} else if d == 2 {} else if d == 3 {} else if d == 4 {}
    else if d == 5 {} else if d == 6 {} else if d == 7 {} else if d == 8 {} else {}
  }

  // ------------------------------------------------------------- expressions

  /** `visitExpression`, with the literal, array and array-element cases it delegates to. */
  function VisitExpression(locals: map<string, nat>, e: PExpr): (r: Lowered<Expr>)
    decreases e
  {
    match e
    case PParen(inner) => VisitExpression(locals, inner)
    case PLit(literal) => VisitLiteral(locals, literal)
    case PCall(callee, arguments) =>
      (match VisitExpressions(locals, arguments)
       case Built(xs) => Built(Call(callee, xs))
       case Failed(error) => Failed(error))
    case PArray(elements) =>
      if elements == [] then Built(ArrayLiteral([]))
      else
        (match VisitExpressions(locals, elements)
         case Built(xs) => Built(ArrayLiteral(xs))
         case Failed(error) => Failed(error))
    case PArrayElement(identifier, indexes) =>
      (match VisitExpressions(locals, indexes)
       case Built(xs) => Built(NestedReads(xs, ReadLocalVariable(LocalSlot(locals, identifier))))
       case Failed(error) => Failed(error))
    case PBinary(op, left, right) =>
      (match VisitExpression(locals, left)
       case Failed(error) => Failed(error)
       case Built(l) =>
         match VisitExpression(locals, right)
         case Failed(error) => Failed(error)
         case Built(r) => Built(Binary(op, l, r)))
    case PNot(operand) =>
      (match VisitExpression(locals, operand)
       case Built(x) => Built(Not(x))
       case Failed(error) => Failed(error))
    case PUnknownExpression(text) => Failed(Unknown("expression", text))
  }

  /** The expressions in order; the first failure stops. */
  function VisitExpressions(locals: map<string, nat>, es: seq<PExpr>): (r: Lowered<seq<Expr>>)
    ensures r.Built? ==> |r.node| == |es|
    decreases es
  {
    if es == [] then Built([])
    else
      match VisitExpression(locals, es[0])
      case Failed(error) => Failed(error)
      case Built(x) =>
        match VisitExpressions(locals, es[1..])
        case Failed(error) => Failed(error)
        case Built(xs) => Built([x] + xs)
  }

  /** When every expression builds, the list builds to those nodes, in order. */
  lemma {:induction false} VisitExpressionsPointwise(locals: map<string, nat>, es: seq<PExpr>, xs: seq<Expr>)
    requires |es| == |xs|
    requires forall i :: 0 <= i < |es| ==> VisitExpression(locals, es[i]) == Built(xs[i])
    ensures VisitExpressions(locals, es) == Built(xs)
    decreases |es|
  {
    if es != [] {
      VisitExpressionsPointwise(locals, es[1..], xs[1..]);
      assert [xs[0]] + xs[1..] == xs;
    }
  }

  /** `getReadArrayElementNode`: polls the indexes in order, each wrapping the reads so far. */
  function NestedReads(indexes: seq<Expr>, current: Expr): Expr
    decreases |indexes|
  {
    if indexes == [] then current else NestedReads(indexes[1..], ReadArrayElement(current, indexes[0]))
  }

  /** `getWriteArrayElementNode`: reads through all indexes but the last, then writes at the last. */
  function NestedWrite(indexes: seq<Expr>, element: Expr, current: Expr): (r: Lowered<Stmt>)
    ensures r.Failed? <==> indexes == []
    decreases |indexes|
  {
    if |indexes| == 0 then Failed(NoSuchElement)
    else if |indexes| == 1 then Built(WriteArrayElement(current, indexes[0], element))
    else NestedWrite(indexes[1..], element, ReadArrayElement(current, indexes[0]))
  }

  /** The last index read is the outermost node: e1 is innermost, en outermost. */
  lemma {:induction false} NestedReadsSnoc(indexes: seq<Expr>, index: Expr, current: Expr)
    ensures NestedReads(indexes + [index], current) == ReadArrayElement(NestedReads(indexes, current), index)
    decreases |indexes|
  {
    if indexes == [] {
      assert ([] + [index])[1..] == [];
    } else {
      assert (indexes + [index])[1..] == indexes[1..] + [index];
      NestedReadsSnoc(indexes[1..], index, ReadArrayElement(current, indexes[0]));
    }
  }

  /** A write at e1..en is a write at en into the nested reads over e1..e(n-1). */
  lemma {:induction false} NestedWriteWrapsReads(indexes: seq<Expr>, index: Expr, element: Expr, current: Expr)
    ensures NestedWrite(indexes + [index], element, current) ==
      Built(WriteArrayElement(NestedReads(indexes, current), index, element))
    decreases |indexes|
  {
    if indexes != [] {
      assert (indexes + [index])[1..] == indexes[1..] + [index];
      NestedWriteWrapsReads(indexes[1..], index, element, ReadArrayElement(current, indexes[0]));
    }
  }

  /** `a[0][1][2]` reads element 2 of element 1 of element 0 of `a`. */
  lemma ThreeIndexRead(slot: nat)
    ensures VisitExpression(map["a" := slot], PArrayElement("a", [Index("0"), Index("1"), Index("2")])) ==
      Built(ReadArrayElement(ReadArrayElement(ReadArrayElement(
        ReadLocalVariable(Some(slot)), LongLiteral(0)), LongLiteral(1)), LongLiteral(2)))
  {
    var locals := map["a" := slot];
    IndexValue(locals, 0);
    IndexValue(locals, 1);
    IndexValue(locals, 2);
    assert Index("0") == Index([Text.DigitChar(0)]) && Index("1") == Index([Text.DigitChar(1)]);
    assert Index("2") == Index([Text.DigitChar(2)]);
    assert [Index("0"), Index("1"), Index("2")][1..] == [Index("1"), Index("2")];
    assert [Index("1"), Index("2")][1..] == [Index("2")];
    var xs := [LongLiteral(0), LongLiteral(1), LongLiteral(2)];
    VisitExpressionsPointwise(locals, [Index("0"), Index("1"), Index("2")], xs);
    assert xs[1..] == [LongLiteral(1), LongLiteral(2)] && xs[1..][1..] == [LongLiteral(2)];
    assert xs[1..][1..][1..] == [];
  }

  function Index(text: string): PExpr
  {
    PLit(PLiteral(LongToken, text))
  }

  lemma IndexValue(locals: map<string, nat>, n: nat)
    requires n < 10
    ensures VisitExpression(locals, Index([Text.DigitChar(n)])) == Built(LongLiteral(n))
  {
    DigitValue(n);
    var text := [Text.DigitChar(n)];
    assert text[..0] == [];
    assert DigitsValue(text) == n;
  }

  // -------------------------------------------------------------- statements

  /** What visiting produced and the scope it leaves. */
  datatype Visited<T> = Visited(node: Lowered<T>, scope: Scope)

  /**
   * A statement, in the scope the statements before it left. Assignments,
   * directly or inside a loop or conditional body, find or add their slot
   * before their value is visited; no other statement changes the scope.
   */
  function LowerStatement(scope: Scope, p: PStatement): Visited<Stmt>
    decreases p
  {
    match p
    case PVariableAssignment(target, value) =>
      var slotted := AssignSlot(scope, target);
      var next := slotted.1;
      (match VisitExpression(next.locals, value)
       case Built(x) => Visited(Built(WriteLocalVariable(x, slotted.0)), next)
       case Failed(error) => Visited(Failed(error), next))
    case PArrayElementAssignment(identifier, indexes, element) =>
      (match VisitExpression(scope.locals, element)
       case Failed(error) => Visited(Failed(error), scope)
       case Built(x) =>
         match VisitExpressions(scope.locals, indexes)
         case Failed(error) => Visited(Failed(error), scope)
         case Built(xs) => Visited(NestedWrite(xs, x, ReadLocalVariable(LocalSlot(scope.locals, identifier))), scope))
    case PCallStatement(callee, arguments) =>
      (match VisitExpressions(scope.locals, arguments)
       case Built(xs) => Visited(Built(Evaluate(Call(callee, xs))), scope)
       case Failed(error) => Visited(Failed(error), scope))
    case PReturn(result) =>
      (match VisitExpression(scope.locals, result)
       case Built(x) => Visited(Built(Return(x)), scope)
       case Failed(error) => Visited(Failed(error), scope))
    case PWhile(condition, body) =>
      (match VisitExpression(scope.locals, condition)
       case Failed(error) => Visited(Failed(error), scope)
       case Built(c) =>
         var b := LowerStatements(scope, body);
         match b.node
         case Built(ss) => Visited(Built(While(c, Block(ss))), b.scope)
         case Failed(error) => Visited(Failed(error), b.scope))
    case PIf(condition, thenBranch) =>
      (match VisitExpression(scope.locals, condition)
       case Failed(error) => Visited(Failed(error), scope)
       case Built(c) =>
         var t := LowerStatements(scope, thenBranch);
         match t.node
         case Failed(error) => Visited(Failed(error), t.scope)
         case Built(ts) => Visited(Built(If(c, Block(ts), None)), t.scope))
    case PIfElse(condition, thenBranch, elseBranch) =>
      (match VisitExpression(scope.locals, condition)
       case Failed(error) => Visited(Failed(error), scope)
       case Built(c) =>
         var t := LowerStatements(scope, thenBranch);
         match t.node
         case Failed(error) => Visited(Failed(error), t.scope)
         case Built(ts) =>
           var e := LowerStatements(t.scope, elseBranch);
           match e.node
           case Failed(error) => Visited(Failed(error), e.scope)
           case Built(ss) => Visited(Built(If(c, Block(ts), Some(Block(ss)))), e.scope))
    case PBreak => Visited(Built(Break), scope)
    case PContinue => Visited(Built(Continue), scope)
    case PUnknownStatement(text) => Visited(Failed(Unknown("statement", text)), scope)
  }

  /** Statements in source order, each in the scope the previous one left; the first failure stops. */
  function LowerStatements(scope: Scope, ps: seq<PStatement>): (r: Visited<seq<Stmt>>)
    ensures r.node.Built? ==> |r.node.node| == |ps|
    decreases ps
  {
    if ps == [] then Visited(Built([]), scope)
    else
      var first := LowerStatement(scope, ps[0]);
      match first.node
      case Failed(error) => Visited(Failed(error), first.scope)
      case Built(x) =>
        var rest := LowerStatements(first.scope, ps[1..]);
        match rest.node
        case Failed(error) => Visited(Failed(error), rest.scope)
        case Built(xs) => Visited(Built([x] + xs), rest.scope)
  }

  /**
   * One more statement: the list fails as its prefix fails; otherwise the
   * statement is lowered in the scope the prefix left, and its node follows
   * the prefix's nodes, or its failure fails the list.
   */
  lemma {:induction false} LowerStatementsSnoc(scope: Scope, ps: seq<PStatement>, p: PStatement)
    ensures var before := LowerStatements(scope, ps);
      var all := LowerStatements(scope, ps + [p]);
      (before.node.Failed? ==> all == before)
      && (before.node.Built? ==>
            var last := LowerStatement(before.scope, p);
            all.scope == last.scope
            && (last.node.Built? ==> all.node == Built(before.node.node + [last.node.node]))
            && (last.node.Failed? ==> all.node == Failed(last.node.error)))
    decreases |ps|
  {
    if ps == [] {
      assert [] + [p] == [p] && [p][1..] == [];
      var last := LowerStatement(scope, p);
      if last.node.Built? {
        assert [last.node.node] + [] == [] + [last.node.node];
      }
    } else {
      assert (ps + [p])[0] == ps[0] && (ps + [p])[1..] == ps[1..] + [p];
      var first := LowerStatement(scope, ps[0]);
      if first.node.Built? {
        LowerStatementsSnoc(first.scope, ps[1..], p);
        var rest := LowerStatements(first.scope, ps[1..]);
        if rest.node.Built? {
          var last := LowerStatement(rest.scope, p);
          if last.node.Built? {
            assert [first.node.node] + (rest.node.node + [last.node.node]) ==
              ([first.node.node] + rest.node.node) + [last.node.node];
          }
        }
      }
    }
  }

  /** An unrecognised expression or statement stops the visitor with "Unknown expression"/"Unknown statement". */
  lemma UnknownConstructsFail(scope: Scope, text: string)
    ensures VisitExpression(scope.locals, PUnknownExpression(text)) == Failed(Unknown("expression", text))
    ensures LowerStatement(scope, PUnknownStatement(text)) == Visited(Failed(Unknown("statement", text)), scope)
    ensures UnknownMessage("expression", text) == "Unknown expression: " + text
    ensures UnknownMessage("statement", text) == "Unknown statement: " + text
  {
  }

  /**
   * In a list of expressions, the first one that fails fails the whole list
   * with its error, whatever follows it.
   */
  lemma {:induction false} FirstFailingExpression(locals: map<string, nat>, es: seq<PExpr>, i: nat)
    requires i < |es| && VisitExpression(locals, es[i]).Failed?
    requires forall j :: 0 <= j < i ==> VisitExpression(locals, es[j]).Built?
    ensures VisitExpressions(locals, es) == Failed(VisitExpression(locals, es[i]).error)
    decreases i
  {
    if i > 0 {
      assert forall j :: 0 <= j < i - 1 ==> es[1..][j] == es[j + 1];
      FirstFailingExpression(locals, es[1..], i - 1);
    }
  }

  /**
   * A failing expression fails the statement that holds it with the same
   * error: an assignment's value (visited once the target has its slot), an
   * array element assignment's element and, when that builds, its indexes, a
   * call's arguments, a return value, and the condition of a loop or branch.
   */
  lemma FailingExpressionFailsStatement(scope: Scope, p: PStatement)
    ensures p.PVariableAssignment? && VisitExpression(AssignSlot(scope, p.target).1.locals, p.value).Failed? ==>
      LowerStatement(scope, p).node == Failed(VisitExpression(AssignSlot(scope, p.target).1.locals, p.value).error)
    ensures p.PArrayElementAssignment? && VisitExpression(scope.locals, p.element).Failed? ==>
      LowerStatement(scope, p).node == Failed(VisitExpression(scope.locals, p.element).error)
    ensures (p.PArrayElementAssignment? && VisitExpression(scope.locals, p.element).Built?
        && VisitExpressions(scope.locals, p.indexes).Failed?) ==>
      LowerStatement(scope, p).node == Failed(VisitExpressions(scope.locals, p.indexes).error)
    ensures p.PCallStatement? && VisitExpressions(scope.locals, p.arguments).Failed? ==>
      LowerStatement(scope, p).node == Failed(VisitExpressions(scope.locals, p.arguments).error)
    ensures p.PReturn? && VisitExpression(scope.locals, p.result).Failed? ==>
      LowerStatement(scope, p).node == Failed(VisitExpression(scope.locals, p.result).error)
    ensures (p.PWhile? || p.PIf? || p.PIfElse?) && VisitExpression(scope.locals, p.condition).Failed? ==>
      LowerStatement(scope, p) == Visited(Failed(VisitExpression(scope.locals, p.condition).error), scope)
  {
  }

  /** A failing operand fails the expression around it with the same error; the left operand is visited first. */
  lemma FailingOperandFailsExpression(locals: map<string, nat>, e: PExpr)
    ensures e.PParen? ==> VisitExpression(locals, e) == VisitExpression(locals, e.inner)
    ensures e.PNot? && VisitExpression(locals, e.operand).Failed? ==>
      VisitExpression(locals, e) == VisitExpression(locals, e.operand)
    ensures e.PBinary? && VisitExpression(locals, e.left).Failed? ==>
      VisitExpression(locals, e) == VisitExpression(locals, e.left)
    ensures e.PBinary? && VisitExpression(locals, e.left).Built? && VisitExpression(locals, e.right).Failed? ==>
      VisitExpression(locals, e) == VisitExpression(locals, e.right)
    ensures (e.PCall? && VisitExpressions(locals, e.arguments).Failed?) ==>
      VisitExpression(locals, e) == Failed(VisitExpressions(locals, e.arguments).error)
    ensures (e.PArrayElement? && VisitExpressions(locals, e.indexes).Failed?) ==>
      VisitExpression(locals, e) == Failed(VisitExpressions(locals, e.indexes).error)
    ensures (e.PArray? && VisitExpressions(locals, e.elements).Failed?) ==>
      VisitExpression(locals, e) == Failed(VisitExpressions(locals, e.elements).error)
  {
  }

  /** Parameter bindings so far and the scope they leave. */
  datatype Bound = Bound(bindings: seq<Stmt>, scope: Scope)

  /** `visitIdList`: parameter i is written from argument i into the parameter's slot, in order. */
  function BindParameters(scope: Scope, parameters: seq<string>): (r: Bound)
    ensures |r.bindings| == |parameters|
    ensures forall i :: 0 <= i < |parameters| ==>
      r.bindings[i].WriteLocalVariable? && r.bindings[i].value == ReadArgument(i)
    decreases |parameters|
  {
    if parameters == [] then Bound([], scope)
    else
      var last := |parameters| - 1;
      var before := BindParameters(scope, parameters[..last]);
      var slotted := AssignSlot(before.scope, parameters[last]);
      Bound(before.bindings + [WriteLocalVariable(ReadArgument(last), slotted.0)], slotted.1)
  }

  /** `getFunctionBodyBlockNode`: the parameter bindings, then the body statements, as one block. */
  function FunctionBody(scope: Scope, parameters: seq<string>, body: seq<PStatement>): (r: Visited<Stmt>)
  {
    if |parameters| > 0 then
      var bound := BindParameters(scope, parameters);
      var rest := LowerStatements(bound.scope, body);
      match rest.node
      case Built(ss) => Visited(Built(Block(bound.bindings + ss)), rest.scope)
      case Failed(error) => Visited(Failed(error), rest.scope)
    else
      var rest := LowerStatements(scope, body);
      match rest.node
      case Built(ss) => Visited(Built(Block(ss)), rest.scope)
      case Failed(error) => Visited(Failed(error), rest.scope)
  }

  /** A function declaration: its body block from a fresh scope, and the slot table it ends with. */
  function DeclareFunction(parameters: seq<string>, body: seq<PStatement>): Visited<Stmt>
  {
    FunctionBody(FreshScope, parameters, body)
  }

  /** A call target built by the visitor: the function's slot table and its body. */
  datatype FunctionRoot = FunctionRoot(slots: seq<string>, body: Stmt)

  class TuberNodeGeneratingVisitor {
    var functions: map<string, FunctionRoot>
    var lexicalScope: Option<map<string, nat>>
    var frameDescriptor: Option<seq<string>>

    constructor ()
      ensures functions == map[] && lexicalScope == None && frameDescriptor == None
    {
      functions := map[];
      lexicalScope := None;
      frameDescriptor := None;
    }

    /** Inside a function declaration: both the scope and the descriptor are present. */
    predicate InDeclaration()
      reads this
    {
      lexicalScope.Some? && frameDescriptor.Some?
    }

    function Current(): Scope
      reads this
      requires InDeclaration()
    {
      Scope(lexicalScope.value, frameDescriptor.value)
    }

    /** `visitVariableAssignment`: the slot is found or added and recorded before the value is visited. */
    method VisitVariableAssignment(target: string, value: PExpr) returns (r: Lowered<Stmt>)
      requires InDeclaration()
      modifies this
      ensures InDeclaration() && functions == old(functions)
      ensures Visited(r, Current()) == LowerStatement(old(Current()), PVariableAssignment(target, value))
    {
      var found := FindOrAddFrameSlot(frameDescriptor.value, target);
      frameDescriptor := Some(found.1);
      lexicalScope := Some(lexicalScope.value[target := found.0]);
      var x := VisitExpression(lexicalScope.value, value);
      match x {
        case Built(node) => r := Built(WriteLocalVariable(node, found.0));
        case Failed(error) => r := Failed(error);
      }
    }

    /** Visits one statement, changing the scope only through assignments. */
    method VisitStatement(p: PStatement) returns (r: Lowered<Stmt>)
      requires InDeclaration()
      modifies this
      ensures InDeclaration() && functions == old(functions)
      ensures Visited(r, Current()) == LowerStatement(old(Current()), p)
      decreases p, 1
    {
      match p {
        case PVariableAssignment(target, value) =>
          r := VisitVariableAssignment(target, value);
        case PWhile(condition, body) =>
          var c := VisitExpression(lexicalScope.value, condition);
          if c.Failed? {
            return Failed(c.error);
          }
          var b := VisitStatements(body);
          match b {
            case Built(ss) => r := Built(While(c.node, Block(ss)));
            case Failed(error) => r := Failed(error);
          }
        case PIf(condition, thenBranch) =>
          var c := VisitExpression(lexicalScope.value, condition);
          if c.Failed? {
            return Failed(c.error);
          }
          var t := VisitStatements(thenBranch);
          match t {
            case Built(ts) => r := Built(If(c.node, Block(ts), None));
            case Failed(error) => r := Failed(error);
          }
        case PIfElse(condition, thenBranch, elseBranch) =>
          var c := VisitExpression(lexicalScope.value, condition);
          if c.Failed? {
            return Failed(c.error);
          }
          var t := VisitStatements(thenBranch);
          if t.Failed? {
            return Failed(t.error);
          }
          var e := VisitStatements(elseBranch);
          match e {
            case Built(ss) => r := Built(If(c.node, Block(t.node), Some(Block(ss))));
            case Failed(error) => r := Failed(error);
          }
        case _ =>
          r := LowerStatement(Current(), p).node;
      }
    }

    /** The statements of a block, visited in order (the stream map), stopping at the first failure. */
    method VisitStatements(ps: seq<PStatement>) returns (r: Lowered<seq<Stmt>>)
      requires InDeclaration()
      modifies this
      ensures InDeclaration() && functions == old(functions)
      ensures Visited(r, Current()) == LowerStatements(old(Current()), ps)
      decreases ps, 0
    {
      var done: seq<Stmt> := [];
      assert ps[0..] == ps;
      PrependNothing(LowerStatements(Current(), ps));
      for i := 0 to |ps|
        invariant InDeclaration() && functions == old(functions)
        invariant LowerStatements(old(Current()), ps) == Prepend(done, LowerStatements(Current(), ps[i..]))
      {
        assert ps[i..][0] == ps[i] && ps[i..][1..] == ps[i + 1..];
        ghost var before := Current();
        var x := VisitStatement(ps[i]);
        if x.Failed? {
          assert LowerStatements(before, ps[i..]) == Visited(Failed(x.error), Current());
          return Failed(x.error);
        }
        PrependSnoc(done, x.node, LowerStatements(Current(), ps[i + 1..]));
        done := done + [x.node];
      }
      assert ps[|ps|..] == [] && done + [] == done;
      r := Built(done);
    }

    /** `visitIdList`: one write per parameter, reading argument i into parameter i's slot. */
    method VisitIdList(parameters: seq<string>) returns (r: Stmt)
      requires InDeclaration()
      modifies this
      ensures InDeclaration() && functions == old(functions)
      ensures r.Block? && Bound(r.statements, Current()) == BindParameters(old(Current()), parameters)
    {
      var bindings: seq<Stmt> := [];
      for i := 0 to |parameters|
        invariant InDeclaration() && functions == old(functions)
        invariant Bound(bindings, Current()) == BindParameters(old(Current()), parameters[..i])
      {
        assert parameters[..i + 1][..i] == parameters[..i];
        var found := FindOrAddFrameSlot(frameDescriptor.value, parameters[i]);
        frameDescriptor := Some(found.1);
        lexicalScope := Some(lexicalScope.value[parameters[i] := found.0]);
        bindings := bindings + [WriteLocalVariable(ReadArgument(i), found.0)];
      }
      assert parameters[..|parameters|] == parameters;
      r := Block(bindings);
    }

    /** `getFunctionBodyBlockNode`. */
    method GetFunctionBodyBlockNode(parameters: seq<string>, body: seq<PStatement>) returns (r: Lowered<Stmt>)
      requires InDeclaration()
      modifies this
      ensures InDeclaration() && functions == old(functions)
      ensures Visited(r, Current()) == FunctionBody(old(Current()), parameters, body)
    {
      if |parameters| > 0 {
        var arguments := VisitIdList(parameters);
        var statements := VisitStatements(body);
        match statements {
          case Built(ss) => r := Built(Block(arguments.statements + ss));
          case Failed(error) => r := Failed(error);
        }
      } else {
        var statements := VisitStatements(body);
        match statements {
          case Built(ss) => r := Built(Block(ss));
          case Failed(error) => r := Failed(error);
        }
      }
    }

    /**
     * `visitFunctionDeclaration`: a fresh scope and descriptor, the body
     * block, then both reset and the function stored under its name.
     */
    method VisitFunctionDeclaration(name: string, parameters: seq<string>, body: seq<PStatement>)
      returns (r: Lowered<Stmt>)
      modifies this
      ensures r == DeclareFunction(parameters, body).node
      ensures r.Built? ==>
        functions == old(functions)[name := FunctionRoot(DeclareFunction(parameters, body).scope.slots, r.node)]
        && lexicalScope == None && frameDescriptor == None
      ensures r.Failed? ==> functions == old(functions)
    {
      lexicalScope := Some(map[]);
      frameDescriptor := Some([]);
      r := GetFunctionBodyBlockNode(parameters, body);
      if r.Failed? {
        return;
      }
      var slots := frameDescriptor.value;
      frameDescriptor := None;
      lexicalScope := None;
      functions := functions[name := FunctionRoot(slots, r.node)];
    }
  }

  /** The statements already visited, in front of what the rest produces. */
  function Prepend(done: seq<Stmt>, rest: Visited<seq<Stmt>>): Visited<seq<Stmt>>
  {
    match rest.node
    case Built(xs) => Visited(Built(done + xs), rest.scope)
    case Failed(error) => rest
  }

  lemma PrependNothing(rest: Visited<seq<Stmt>>)
    ensures Prepend([], rest) == rest
  {
    if rest.node.Built? {
      assert [] + rest.node.node == rest.node.node;
    }
  }

  lemma PrependSnoc(done: seq<Stmt>, x: Stmt, rest: Visited<seq<Stmt>>)
    ensures Prepend(done, Prepend([x], rest)) == Prepend(done + [x], rest)
  {
    if rest.node.Built? {
      assert done + ([x] + rest.node.node) == done + [x] + rest.node.node;
    }
  }

  // ------------------------------------------------------------ scope facts

  /** The slot table names each slot once, and every local points at the slot of its own name. */
  predicate ScopeConsistent(scope: Scope)
  {
    (forall i, j :: 0 <= i < j < |scope.slots| ==> scope.slots[i] != scope.slots[j])
    && (forall id :: id in scope.locals ==>
          scope.locals[id] < |scope.slots| && scope.slots[scope.locals[id]] == id)
  }

  /** `after` keeps every slot of `before` and every name's slot. */
  predicate Extends(before: Scope, after: Scope)
  {
    before.slots <= after.slots
    && forall id :: id in before.locals ==> id in after.locals && after.locals[id] == before.locals[id]
  }

  lemma ExtendsTransitive(a: Scope, b: Scope, c: Scope)
    requires Extends(a, b) && Extends(b, c)
    ensures Extends(a, c)
  {
  }

  /**
   * Assigning a name keeps the scope consistent: a known name keeps its slot
   * and nothing changes; a new name gets the next slot.
   */
  lemma AssignSlotKeepsScope(scope: Scope, identifier: string)
    requires ScopeConsistent(scope)
    ensures var r := AssignSlot(scope, identifier);
      ScopeConsistent(r.1) && Extends(scope, r.1)
      && identifier in r.1.locals && r.1.locals[identifier] == r.0
      && (identifier in scope.locals ==> r == (scope.locals[identifier], scope))
      && (identifier !in scope.slots ==> r.0 == |scope.slots| && r.1.slots == scope.slots + [identifier])
  {
    var r := AssignSlot(scope, identifier);
    if identifier in scope.locals {
      var j := scope.locals[identifier];
      assert identifier in scope.slots by { assert scope.slots[j] == identifier; }
      assert r.0 == j;
      assert scope.locals[identifier := j] == scope.locals;
    }
  }

  /** Visiting statements keeps the scope consistent and only ever extends it. */
  lemma {:induction false} LowerStatementKeepsScope(scope: Scope, p: PStatement)
    requires ScopeConsistent(scope)
    ensures var r := LowerStatement(scope, p); ScopeConsistent(r.scope) && Extends(scope, r.scope)
    decreases p
  {
    match p {
      case PVariableAssignment(target, _) =>
        AssignSlotKeepsScope(scope, target);
      case PWhile(condition, body) =>
        if VisitExpression(scope.locals, condition).Built? {
          LowerStatementsKeepScope(scope, body);
        }
      case PIf(condition, thenBranch) =>
        if VisitExpression(scope.locals, condition).Built? {
          LowerStatementsKeepScope(scope, thenBranch);
        }
      case PIfElse(condition, thenBranch, elseBranch) =>
        if VisitExpression(scope.locals, condition).Built? {
          var t := LowerStatements(scope, thenBranch);
          LowerStatementsKeepScope(scope, thenBranch);
          if t.node.Built? {
            LowerStatementsKeepScope(t.scope, elseBranch);
            ExtendsTransitive(scope, t.scope, LowerStatements(t.scope, elseBranch).scope);
          }
        }
      case _ =>
    }
  }

  lemma {:induction false} LowerStatementsKeepScope(scope: Scope, ps: seq<PStatement>)
    requires ScopeConsistent(scope)
    ensures var r := LowerStatements(scope, ps); ScopeConsistent(r.scope) && Extends(scope, r.scope)
    decreases ps
  {
    if ps != [] {
      var first := LowerStatement(scope, ps[0]);
      LowerStatementKeepsScope(scope, ps[0]);
      if first.node.Built? {
        LowerStatementsKeepScope(first.scope, ps[1..]);
        ExtendsTransitive(scope, first.scope, LowerStatements(first.scope, ps[1..]).scope);
      }
    }
  }

  predicate Distinct(names: seq<string>)
  {
    forall i, j :: 0 <= i < j < |names| ==> names[i] != names[j]
  }

  /** The scope of parameters `names` bound in order: slot i is the i-th name, which maps to it. */
  predicate HoldsParameters(scope: Scope, names: seq<string>)
  {
    scope.slots == names
    && (forall i :: 0 <= i < |names| ==> names[i] in scope.locals && scope.locals[names[i]] == i)
    && (forall id :: id in scope.locals ==> id in names)
  }

  lemma HoldsParametersStep(scope: Scope, names: seq<string>, name: string)
    requires HoldsParameters(scope, names) && name !in names
    ensures AssignSlot(scope, name) == (|names|, Scope(scope.locals[name := |names|], names + [name]))
    ensures HoldsParameters(AssignSlot(scope, name).1, names + [name])
  {
    var after := Scope(scope.locals[name := |names|], names + [name]);
    forall i | 0 <= i < |names| + 1
      ensures (names + [name])[i] in after.locals && after.locals[(names + [name])[i]] == i
    {
      if i < |names| {
        assert (names + [name])[i] == names[i];
      }
    }
  }

  /** In a fresh scope, distinct parameters take slots 0..n-1 in declaration order. */
  lemma {:induction false} ParameterSlots(parameters: seq<string>)
    requires Distinct(parameters)
    ensures HoldsParameters(BindParameters(FreshScope, parameters).scope, parameters)
    decreases |parameters|
  {
    if parameters != [] {
      var last := |parameters| - 1;
      var prefix := parameters[..last];
      assert Distinct(prefix) by {
        forall i, j | 0 <= i < j < |prefix|
          ensures prefix[i] != prefix[j]
        {
          assert prefix[i] == parameters[i] && prefix[j] == parameters[j];
        }
      }
      ParameterSlots(prefix);
      assert parameters[last] !in prefix by {
        forall i | 0 <= i < |prefix|
          ensures prefix[i] != parameters[last]
        {
          assert prefix[i] == parameters[i];
        }
      }
      HoldsParametersStep(BindParameters(FreshScope, prefix).scope, prefix, parameters[last]);
      assert prefix + [parameters[last]] == parameters;
    }
  }

  /** Binding i of distinct parameters in a fresh scope writes argument i into slot i. */
  lemma {:induction false} ParametersTakeFirstSlots(parameters: seq<string>)
    requires Distinct(parameters)
    ensures var b := BindParameters(FreshScope, parameters);
      forall i :: 0 <= i < |parameters| ==> b.bindings[i] == WriteLocalVariable(ReadArgument(i), i)
    decreases |parameters|
  {
    if parameters != [] {
      var last := |parameters| - 1;
      var prefix := parameters[..last];
      ParametersTakeFirstSlots(prefix);
      ParameterSlots(prefix);
      var before := BindParameters(FreshScope, prefix);
      assert parameters[last] !in prefix;
      assert AssignSlot(before.scope, parameters[last]).0 == last;
      var b := BindParameters(FreshScope, parameters);
      assert b.bindings == before.bindings + [WriteLocalVariable(ReadArgument(last), last)];
    }
  }

  /**
   * A function declared with distinct parameters: its body block starts with
   * the parameter writes, argument i to slot i, followed by the body
   * statements, visited in the scope holding the parameters.
   */
  lemma DeclarationBindsParametersFirst(parameters: seq<string>, body: seq<PStatement>)
    requires Distinct(parameters)
    requires DeclareFunction(parameters, body).node.Built?
    ensures var bound := BindParameters(FreshScope, parameters);
      var block := DeclareFunction(parameters, body).node.node;
      var rest := LowerStatements(bound.scope, body);
      block.Block? && rest.node.Built?
      && block.statements == bound.bindings + rest.node.node
      && (forall i :: 0 <= i < |parameters| ==> block.statements[i] == WriteLocalVariable(ReadArgument(i), i))
      && parameters <= DeclareFunction(parameters, body).scope.slots
  {
    var bound := BindParameters(FreshScope, parameters);
    ParametersTakeFirstSlots(parameters);
    ParameterSlots(parameters);
    HoldsDistinctParametersConsistent(bound.scope, parameters);
    LowerStatementsKeepScope(bound.scope, body);
    if |parameters| == 0 {
      assert bound == Bound([], FreshScope);
      assert [] + LowerStatements(FreshScope, body).node.node == LowerStatements(FreshScope, body).node.node;
    }
  }

  lemma HoldsDistinctParametersConsistent(scope: Scope, names: seq<string>)
    requires HoldsParameters(scope, names) && Distinct(names)
    ensures ScopeConsistent(scope)
  {
    forall id | id in scope.locals
      ensures scope.locals[id] < |scope.slots| && scope.slots[scope.locals[id]] == id
    {
      var k :| 0 <= k < |names| && names[k] == id;
      assert scope.locals[names[k]] == k;
    }
  }

  /** The target's slot exists before the value is visited, so `x = x` reads the slot it writes. */
  lemma AssignmentSlotBeforeValue(scope: Scope, x: string)
    requires ScopeConsistent(scope)
    ensures var r := LowerStatement(scope, PVariableAssignment(x, PLit(PLiteral(IdentifierToken, x))));
      r.node.Built? && r.node.node.WriteLocalVariable?
      && r.node.node.value == ReadLocalVariable(Some(r.node.node.slot))
  {
    AssignSlotKeepsScope(scope, x);
  }

  /** `def fun(a, b) { c = 5; }`: slots a, b, c; two parameter writes, then the assignment. */
  lemma DeclarationExample()
    ensures DeclareFunction(["a", "b"], [PVariableAssignment("c", Index("5"))]) ==
      Visited(Built(Block([
        WriteLocalVariable(ReadArgument(0), 0),
        WriteLocalVariable(ReadArgument(1), 1),
        WriteLocalVariable(LongLiteral(5), 2)])),
        Scope(map["a" := 0, "b" := 1, "c" := 2], ["a", "b", "c"]))
  {
    BindTwoParameters();
    AssignAfterParameters();
    var bindings := [WriteLocalVariable(ReadArgument(0), 0), WriteLocalVariable(ReadArgument(1), 1)];
    assert bindings + [WriteLocalVariable(LongLiteral(5), 2)] == [
        WriteLocalVariable(ReadArgument(0), 0),
        WriteLocalVariable(ReadArgument(1), 1),
        WriteLocalVariable(LongLiteral(5), 2)];
  }

  lemma BindTwoParameters()
    ensures BindParameters(FreshScope, ["a", "b"]) ==
      Bound([WriteLocalVariable(ReadArgument(0), 0), WriteLocalVariable(ReadArgument(1), 1)],
        Scope(map["a" := 0, "b" := 1], ["a", "b"]))
  {
    assert ["a", "b"][..1] == ["a"] && ["a"][..0] == [];
    assert BindParameters(FreshScope, ["a"]) ==
      Bound([WriteLocalVariable(ReadArgument(0), 0)], Scope(map["a" := 0], ["a"]));
  }

  lemma AssignAfterParameters()
    ensures LowerStatements(Scope(map["a" := 0, "b" := 1], ["a", "b"]), [PVariableAssignment("c", Index("5"))]) ==
      Visited(Built([WriteLocalVariable(LongLiteral(5), 2)]), Scope(map["a" := 0, "b" := 1, "c" := 2], ["a", "b", "c"]))
  {
    var ab := Scope(map["a" := 0, "b" := 1], ["a", "b"]);
    var abc := Scope(map["a" := 0, "b" := 1, "c" := 2], ["a", "b", "c"]);
    assert "c" !in ab.slots && ab.slots + ["c"] == abc.slots;
    assert AssignSlot(ab, "c") == (2, abc);
    IndexValue(abc.locals, 5);
    assert Index("5") == Index([Text.DigitChar(5)]);
    var ps := [PVariableAssignment("c", Index("5"))];
    assert LowerStatement(ab, ps[0]) == Visited(Built(WriteLocalVariable(LongLiteral(5), 2)), abc);
    assert ps[1..] == [];
    assert [WriteLocalVariable(LongLiteral(5), 2)] + [] == [WriteLocalVariable(LongLiteral(5), 2)];
  }

  /** An unrecognised literal fails with "Unknown literal: " and its text. */
  lemma UnknownLiteralMessage(locals: map<string, nat>, text: string)
    ensures VisitLiteral(locals, PLiteral(NoToken, text)) == Failed(Unknown("literal", text))
    ensures UnknownMessage("literal", text) == "Unknown literal: " + text
  {
  }
}
