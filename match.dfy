// Node guards (lib/match.js): stateless checks on a syntax node that either
// pass, producing nothing, or fail with a message.
module Match {
  import opened Failure
  import opened Ast

  /**
   * The `operator` of a node: unary, binary and assignment expressions carry
   * one, and so may the kinds the validator does not inspect (logical and
   * update expressions); every other node has none.
   */
  function Operator(node: Expr): Option<string> {
    match node
    case UnaryExpression(op, _) => Some(op)
    case BinaryExpression(op, _, _) => Some(op)
    case AssignmentExpression(op, _, _) => Some(op)
    case OtherExpression(_, op) => op
    case _ => None
  }

  /** The `value` of a node, for the literal nodes that have one. */
  function ValueOf(node: Expr): Option<LitValue> {
    if node.Literal? then Some(node.value) else None
  }

  /** `literal` (lib/match.js:1-6): the node is a Literal and its value is `expected`. */
  function ExpectLiteral(node: Expr, expected: LitValue, context: string): (r: Outcome)
    ensures r.Ok? <==> ValueOf(node) == Some(expected)
    ensures !node.Literal? ==> r.Err?
    ensures r.Ok? ==> r == Pass
  {
    if !node.Literal? then
      Err(context + " expects literal, got " + ExprKindName(node) + " node")
    else if node.value != expected then
      Err(context + " expects a different literal value")
    else
      Pass
  }

  /** `identifier` (lib/match.js:8-13): the node is an Identifier with exactly the given name. */
  function ExpectIdentifier(node: Expr, name: string): (r: Outcome)
    ensures r.Ok? <==> node == Identifier(name)
    ensures r.Ok? ==> r == Pass
  {
    if !node.Identifier? then
      Err("expected identifier, got " + ExprKindName(node) + " node")
    else if node.name != name then
      Err("expected identifier " + name + ", got " + node.name)
    else
      Pass
  }

  /** `nodeType` on an expression (lib/match.js:15-18). */
  function ExpectNodeType(node: Expr, expected: string, message: string): (r: Outcome)
    ensures r.Ok? <==> ExprKindName(node) == expected
    ensures r.Ok? ==> r == Pass
  {
    if ExprKindName(node) != expected then
      Err("expected " + message + ", got " + ExprKindName(node) + " node")
    else
      Pass
  }

  /** `nodeType` on a statement (lib/match.js:15-18). */
  function ExpectStmtType(node: Stmt, expected: string, message: string): (r: Outcome)
    ensures r.Ok? <==> KindName(KindOf(node)) == expected
    ensures r.Ok? ==> r == Pass
  {
    if KindName(KindOf(node)) != expected then
      Err("expected " + message + ", got " + KindName(KindOf(node)) + " node")
    else
      Pass
  }

  /** `nodeOp` (lib/match.js:20-23): the node's operator is `expected`; a node without one fails. */
  function ExpectNodeOp(node: Expr, expected: string, message: string): (r: Outcome)
    ensures r.Ok? <==> Operator(node) == Some(expected)
    ensures r.Ok? ==> node.UnaryExpression? || node.BinaryExpression? || node.AssignmentExpression? || node.OtherExpression?
    ensures r.Ok? ==> r == Pass
  {
    if Operator(node) != Some(expected) then
      Err("expected " + message + ", got another operator")
    else
      Pass
  }
}
