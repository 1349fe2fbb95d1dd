// The already-parsed syntax tree the validator consumes: one constructor per
// node kind of the parser's output that the validator inspects, plus a
// catch-all constructor for every other kind. Source locations are left out.
module Ast {
  import opened Failure

  /** The `value` of a Literal node: a number (a JavaScript double, modelled exactly), a string, a boolean or null. */
  datatype LitValue = Num(n: real) | Str(s: string) | Bool(b: bool) | Null

  datatype Expr =
    | Literal(value: LitValue, raw: string)
    | Identifier(name: string)
    | AssignmentExpression(assignOp: string, left: Expr, right: Expr)
    | MemberExpression(base: Expr, property: Expr, computed: bool)
    | ConditionalExpression(test: Expr, consequent: Expr, alternate: Expr)
    | SequenceExpression(expressions: seq<Expr>)
    | UnaryExpression(unaryOp: string, argument: Expr)
    | BinaryExpression(binaryOp: string, left: Expr, right: Expr)
    | CallExpression(callee: Expr, arguments: seq<Expr>)
    | NewExpression(callee: Expr, arguments: seq<Expr>)
    | ArrayExpression(elements: seq<Expr>)
    | ObjectExpression(properties: seq<Property>)
    | OtherExpression(kind: string, otherOp: Option<string>)

  /** One `key: value` entry of an object literal; `kind` is "init", "get" or "set". */
  datatype Property = Property(key: Expr, value: Expr, kind: string)

  datatype Declarator = Declarator(id: string, init: Option<Expr>)

  datatype SwitchCase = SwitchCase(test: Option<Expr>, consequent: seq<Stmt>)

  datatype ForInit = ForDeclaration(declarations: seq<Declarator>) | ForExpression(expr: Expr)

  datatype FunctionDecl = FunctionDecl(id: string, params: seq<string>, body: seq<Stmt>)

  datatype Stmt =
    | ExpressionStatement(expression: Expr)
    | VariableDeclaration(declarations: seq<Declarator>)
    | FunctionDeclaration(decl: FunctionDecl)
    | ReturnStatement(argument: Option<Expr>)
    | BlockStatement(stmts: seq<Stmt>)
    | IfStatement(test: Expr, consequent: Stmt, alternate: Option<Stmt>)
    | WhileStatement(test: Expr, body: Stmt)
    | DoWhileStatement(body: Stmt, test: Expr)
    | ForStatement(forInit: Option<ForInit>, forTest: Option<Expr>, forUpdate: Option<Expr>, body: Stmt)
    | BreakStatement(target: Option<string>)
    | ContinueStatement(target: Option<string>)
    | LabeledStatement(labelName: string, body: Stmt)
    | SwitchStatement(discriminant: Expr, cases: seq<SwitchCase>)
    | EmptyStatement
    | OtherStatement(kind: string)

  /** The node kinds of statements, which the module splitter compares. */
  datatype StmtKind =
    | KExpressionStatement | KVariableDeclaration | KFunctionDeclaration | KReturnStatement
    | KBlockStatement | KIfStatement | KWhileStatement | KDoWhileStatement | KForStatement
    | KBreakStatement | KContinueStatement | KLabeledStatement | KSwitchStatement
    | KEmptyStatement | KOther(name: string)

  function KindOf(s: Stmt): StmtKind {
    match s
    case ExpressionStatement(_) => KExpressionStatement
    case VariableDeclaration(_) => KVariableDeclaration
    case FunctionDeclaration(_) => KFunctionDeclaration
    case ReturnStatement(_) => KReturnStatement
    case BlockStatement(_) => KBlockStatement
    case IfStatement(_, _, _) => KIfStatement
    case WhileStatement(_, _) => KWhileStatement
    case DoWhileStatement(_, _) => KDoWhileStatement
    case ForStatement(_, _, _, _) => KForStatement
    case BreakStatement(_) => KBreakStatement
    case ContinueStatement(_) => KContinueStatement
    case LabeledStatement(_, _) => KLabeledStatement
    case SwitchStatement(_, _) => KSwitchStatement
    case EmptyStatement => KEmptyStatement
    case OtherStatement(k) => KOther(k)
  }

  /** The parser's name for the node's kind (`node.type`). */
  function KindName(k: StmtKind): string {
    match k
    case KExpressionStatement => "ExpressionStatement"
    case KVariableDeclaration => "VariableDeclaration"
    case KFunctionDeclaration => "FunctionDeclaration"
    case KReturnStatement => "ReturnStatement"
    case KBlockStatement => "BlockStatement"
    case KIfStatement => "IfStatement"
    case KWhileStatement => "WhileStatement"
    case KDoWhileStatement => "DoWhileStatement"
    case KForStatement => "ForStatement"
    case KBreakStatement => "BreakStatement"
    case KContinueStatement => "ContinueStatement"
    case KLabeledStatement => "LabeledStatement"
    case KSwitchStatement => "SwitchStatement"
    case KEmptyStatement => "EmptyStatement"
    case KOther(name) => name
  }

  function ExprKindName(e: Expr): string {
    match e
    case Literal(_, _) => "Literal"
    case Identifier(_) => "Identifier"
    case AssignmentExpression(_, _, _) => "AssignmentExpression"
    case MemberExpression(_, _, _) => "MemberExpression"
    case ConditionalExpression(_, _, _) => "ConditionalExpression"
    case SequenceExpression(_) => "SequenceExpression"
    case UnaryExpression(_, _) => "UnaryExpression"
    case BinaryExpression(_, _, _) => "BinaryExpression"
    case CallExpression(_, _) => "CallExpression"
    case NewExpression(_, _) => "NewExpression"
    case ArrayExpression(_) => "ArrayExpression"
    case ObjectExpression(_) => "ObjectExpression"
    case OtherExpression(k, _) => k
  }

  /** `hasDot` (lib/validate.js:52-54): the literal's source text contains a '.'. */
  predicate HasDot(raw: string) {
    '.' in raw
  }

  /** A numeric literal whose value lies in [lo, hi), as `match.range(lo, hi)` tests it. */
  predicate NumberInRange(v: LitValue, lo: int, hi: int) {
    v.Num? && lo as real <= v.n < hi as real
  }

  predicate IsInteger(v: LitValue) {
    v.Num? && v.n == v.n.Floor as real
  }

  /** `nonEmpty` (lib/validate.js:30-32) applied to a statement list, keeping order. */
  function NonEmpty(ss: seq<Stmt>): (r: seq<Stmt>)
    ensures |r| <= |ss|
    ensures forall i :: 0 <= i < |r| ==> !r[i].EmptyStatement?
    ensures forall s :: s in r <==> s in ss && !s.EmptyStatement?
  {
    if ss == [] then []
    else if ss[0].EmptyStatement? then NonEmpty(ss[1..])
    else [ss[0]] + NonEmpty(ss[1..])
  }

  /** The filter keeps a statement exactly when it is not empty. */
  lemma NonEmptySingle(s: Stmt)
    ensures NonEmpty([s]) == if s.EmptyStatement? then [] else [s]
  {
    assert [s][1..] == [];
  }

  /** The filter distributes over concatenation, so it keeps order and multiplicity. */
  lemma {:induction false} NonEmptyConcat(a: seq<Stmt>, b: seq<Stmt>)
    ensures NonEmpty(a + b) == NonEmpty(a) + NonEmpty(b)
    decreases |a|
  {
    if a == [] {
      assert a + b == b;
    } else {
      assert (a + b)[0] == a[0] && (a + b)[1..] == a[1..] + b;
      NonEmptyConcat(a[1..], b);
    }
  }

  // Sizes of trees, used as termination measures by the recursive checkers.

  function Size(e: Expr): (n: nat)
    ensures n >= 1
  {
    match e
    case Literal(_, _) => 1
    case Identifier(_) => 1
    case AssignmentExpression(_, l, r) => 1 + Size(l) + Size(r)
    case MemberExpression(o, p, _) => 1 + Size(o) + Size(p)
    case ConditionalExpression(t, c, a) => 1 + Size(t) + Size(c) + Size(a)
    case SequenceExpression(es) => 1 + SizeSeq(es)
    case UnaryExpression(_, a) => 1 + Size(a)
    case BinaryExpression(_, l, r) => 1 + Size(l) + Size(r)
    case CallExpression(c, args) => 1 + Size(c) + SizeSeq(args)
    case NewExpression(c, args) => 1 + Size(c) + SizeSeq(args)
    case ArrayExpression(es) => 1 + SizeSeq(es)
    case ObjectExpression(ps) => 1 + SizeProps(ps)
    case OtherExpression(_, _) => 1
  }

  function SizeSeq(es: seq<Expr>): (n: nat)
    ensures forall i :: 0 <= i < |es| ==> Size(es[i]) <= n
  {
    if es == [] then 0 else Size(es[0]) + SizeSeq(es[1..])
  }

  function SizeProps(ps: seq<Property>): nat {
    if ps == [] then 0 else Size(ps[0].key) + Size(ps[0].value) + SizeProps(ps[1..])
  }

  lemma {:induction false} SizeSeqConcat(a: seq<Expr>, b: seq<Expr>)
    ensures SizeSeq(a + b) == SizeSeq(a) + SizeSeq(b)
  {
    if a == [] {
      assert a + b == b;
    } else {
      assert (a + b)[1..] == a[1..] + b;
      SizeSeqConcat(a[1..], b);
    }
  }

  function StmtSize(s: Stmt): (n: nat)
    ensures n >= 1
  {
    match s
    case BlockStatement(body) => 1 + StmtsSize(body)
    case IfStatement(_, c, a) => 1 + StmtSize(c) + (if a.Some? then StmtSize(a.value) else 0)
    case WhileStatement(_, b) => 1 + StmtSize(b)
    case DoWhileStatement(b, _) => 1 + StmtSize(b)
    case ForStatement(_, _, _, b) => 1 + StmtSize(b)
    case LabeledStatement(_, b) => 1 + StmtSize(b)
    case SwitchStatement(_, cases) => 1 + CasesSize(cases)
    case _ => 1
  }

  function StmtsSize(ss: seq<Stmt>): (n: nat)
    ensures forall i :: 0 <= i < |ss| ==> StmtSize(ss[i]) <= n
  {
    if ss == [] then 0 else StmtSize(ss[0]) + StmtsSize(ss[1..])
  }

  function CasesSize(cs: seq<SwitchCase>): (n: nat)
    ensures forall i :: 0 <= i < |cs| ==> StmtsSize(cs[i].consequent) < n
  {
    if cs == [] then 0 else 1 + StmtsSize(cs[0].consequent) + CasesSize(cs[1..])
  }
}
