// Typing of function bodies (lib/validate.js:276-296, 639-1027): name
// lookup, subtype checks, overload resolution, expressions, calls and
// statements. Each check either yields a type or the first failure.
module Checker {
  import opened Failure
  import opened Ast
  import opened Types
  import opened Tables
  import opened Utilities

  /**
   * What checking a function body reads of the validator: the module scope,
   * the locals of the function being checked, and its declared result type.
   */
  datatype FunCtx = FunCtx(globals: map<string, Binding>, locals: map<string, ValueType>, result: ValueType)

  /** `lookup` (lib/validate.js:276-288): the locals first, when there are any, then the module scope. */
  function Lookup(globals: map<string, Binding>, locals: Option<map<string, ValueType>>, x: string): (r: Result<Type>)
    ensures locals.Some? && x in locals.value ==> r == Ok(Value(locals.value[x]))
    ensures (locals.None? || x !in locals.value) && x in globals ==> r == Ok(globals[x].ty)
    ensures r.Err? <==> (locals.None? || x !in locals.value) && x !in globals
  {
    if locals.Some? && x in locals.value then Ok(Value(locals.value[x]))
    else if x in globals then Ok(globals[x].ty)
    else Err("unbound variable " + x)
  }

  function LookupIn(ctx: FunCtx, x: string): Result<Type> {
    Lookup(ctx.globals, Some(ctx.locals), x)
  }

  /** `lookupValueType` (lib/validate.js:291-296): the name must denote a value, not a function, view, table or parameter. */
  function LookupValueType(ctx: FunCtx, x: string): (r: Result<ValueType>)
    ensures r.Ok? <==> LookupIn(ctx, x).Ok? && LookupIn(ctx, x).value.Value?
    ensures r.Ok? ==> LookupIn(ctx, x) == Ok(Value(r.value))
  {
    var t :- LookupIn(ctx, x);
    if t.Value? then Ok(t.vt) else Err("expected value type for " + x)
  }

  /** `checkSubtype` (lib/validate.js:685-688). */
  function CheckSubtype(actual: ValueType, expected: ValueType, msg: string): (r: Outcome)
    ensures r.Ok? <==> Subtype(actual, expected)
  {
    Need(Subtype(actual, expected), "unexpected type in " + msg)
  }

  /** `checkSameType` (lib/validate.js:690-693). */
  function CheckSameType(actual: ValueType, expected: ValueType, msg: string): (r: Outcome)
    ensures r.Ok? <==> actual == expected
  {
    Need(Equals(actual, expected), "unexpected type in " + msg)
  }

  /** An alternative applies when it has as many parameters as there are arguments and each argument is below its parameter. */
  predicate Matches(alt: Arrow, ts: seq<ValueType>) {
    |alt.params| == |ts| && forall i :: 0 <= i < |ts| ==> Subtype(ts[i], alt.params[i])
  }

  /** A one-parameter alternative applies to one argument exactly when the argument is below the parameter. */
  lemma MatchesOne(alt: Arrow, t: ValueType)
    requires |alt.params| == 1
    ensures Matches(alt, [t]) <==> Subtype(t, alt.params[0])
  {
    assert [t][0] == t;
  }

  /** The result of the first alternative, in declared order, that applies. */
  function FirstMatch(alts: seq<Arrow>, ts: seq<ValueType>): (r: Option<ValueType>)
    ensures r.Some? ==> exists j :: 0 <= j < |alts| && Matches(alts[j], ts) && alts[j].result == r.value
  {
    if alts == [] then None
    else if Matches(alts[0], ts) then Some(alts[0].result)
    else FirstMatch(alts[1..], ts)
  }

  /**
   * `checkArguments` (lib/validate.js:696-717). For a plain signature each
   * argument is checked against the parameter at its position (an argument
   * beyond the last parameter fails, missing arguments are not checked) and
   * the declared result is returned. An overloaded signature takes its first
   * applicable alternative. Anything else is not callable.
   */
  function CheckArguments(ts: seq<ValueType>, expected: Type, msg: string): (r: Result<ValueType>)
    ensures r.Ok? ==> expected.Fn? || expected.Overloaded?
    ensures expected.Fn? && r.Ok? ==> r.value == expected.arrow.result
    ensures expected.Overloaded? && r.Ok? ==>
      exists j :: 0 <= j < |expected.alts| && Matches(expected.alts[j], ts) && expected.alts[j].result == r.value
  {
    match expected
    case Fn(a) =>
      if |ts| <= |a.params| && forall i :: 0 <= i < |ts| ==> Subtype(ts[i], a.params[i]) then Ok(a.result)
      else Err("unexpected argument type in " + msg)
    case Overloaded(alts) =>
      var t := FirstMatch(alts, ts);
      if t.Some? then Ok(t.value) else Err(msg + ": argument types do not match any overloading")
    case _ => Err("expected function type in " + msg)
  }

  // ---------------------------------------------------------------------------
  // Expressions (lib/validate.js:779-972) and calls (979-1027)
  // ---------------------------------------------------------------------------

  /**
   * The literals typed Fixnum. lib/validate.js:785 writes the range with the
   * upper bound 0xffffffff (exclusive); every other integer-literal range in
   * lib/validate.js (253, 315, 475, 807) ends at 2^32, which is used here.
   */
  predicate FixnumLiteral(v: LitValue) {
    NumberInRange(v, -0x8000_0000, TwoTo32)
  }

  /** The range exactly as lib/validate.js:785 writes it. */
  predicate FixnumLiteralAsWritten(v: LitValue) {
    NumberInRange(v, -0x8000_0000, 0xffff_ffff)
  }

  /** `e >> n` with a dotless numeric literal `n`: the index of a shifted heap access. */
  predicate IsShiftedIndex(p: Expr) {
    && p.BinaryExpression? && p.binaryOp == ">>"
    && p.right.Literal? && p.right.value.Num? && !HasDot(p.right.raw)
  }

  /** `i & n` with a dotless numeric literal `n`: the index of an indirect call. */
  predicate IsMaskedIndex(p: Expr) {
    && p.BinaryExpression? && p.binaryOp == "&"
    && p.right.Literal? && p.right.value.Num? && !HasDot(p.right.raw)
  }

  /** A literal `0` written without a dot, the right operand of the `e|0` coercion. */
  predicate IsDotlessZero(p: Expr) {
    p.Literal? && p.value == Num(0.0) && !HasDot(p.raw)
  }

  /** A heap index that is a dotless numeric literal in [0, 2^32). */
  predicate IsConstantIndex(p: Expr) {
    p.Literal? && NumberInRange(p.value, 0, TwoTo32) && !HasDot(p.raw)
  }

  /** `expression`: the type of `e`, trying the patterns in the order of lib/validate.js:781-970. */
  function Expression(ctx: FunCtx, e: Expr): Result<ValueType>
    decreases Size(e), 1
  {
    NestedOperandsSmaller(e);
    match e
    case Literal(v, raw) =>
      if HasDot(raw) then Ok(Double)
      else if FixnumLiteral(v) then Ok(Fixnum)
      else Err("invalid expression")
    case Identifier(x) =>
      LookupValueType(ctx, x)
    case AssignmentExpression(_, left, right) =>
      if left.Identifier? || left.MemberExpression? then
        var s :- Expression(ctx, left);
        var t :- Expression(ctx, right);
        var _ :- CheckSubtype(t, s, "assignment");
        Ok(t)
      else Err("invalid expression")
    case MemberExpression(obj, prop, computed) =>
      if !obj.Identifier? then Err("invalid expression")
      else if IsConstantIndex(prop) then
        var t :- LookupIn(ctx, obj.name);
        if t.View? then Ok(t.elem) else Err("expected view type")
      else if computed && IsShiftedIndex(prop) then
        var t :- LookupIn(ctx, obj.name);
        if !t.View? then Err("expected view type")
        else
          var a :- Expression(ctx, prop.left);
          var _ :- CheckSubtype(a, Intish, "heap address");
          if prop.right.value.n != Log2(t.bytes) as real then Err("unexpected shift for view type")
          else Ok(t.elem)
      else if computed then
        var t :- LookupIn(ctx, obj.name);
        if !t.View? then Err("expected view type")
        else if t.bytes != 1 then Err("expected view type with element size 1")
        else if t.elem != Intish then Err("expected view type with intish elements")
        else
          var a :- Expression(ctx, prop);
          var _ :- CheckSubtype(a, Int, "heap address");
          Ok(Intish)
      else Err("invalid expression")
    case ConditionalExpression(test, cons, alt) =>
      var c :- Expression(ctx, test);
      var _ :- CheckSubtype(c, Int, "conditional test");
      var t1 :- Expression(ctx, cons);
      var t2 :- Expression(ctx, alt);
      if t1 != t2 then Err("type mismatch between conditional branches")
      else if t1 != Int && t1 != Double then Err("expected int or double in conditional branch")
      else Ok(t1)
    case SequenceExpression(es) =>
      if es == [] then Err("invalid expression") else SequenceItems(ctx, es)
    case UnaryExpression(op, arg) =>
      if op == "~" && arg.UnaryExpression? && arg.unaryOp == "~" then
        var t :- Expression(ctx, arg.argument);
        var _ :- CheckSubtype(t, Double, "double->signed coercion");
        Ok(Signed)
      else if op == "+" && arg.CallExpression? then
        var _ :- Call(ctx, arg, Double);
        Ok(Double)
      else if op !in Unops then Err("unknown unary operator " + op)
      else
        var t :- Expression(ctx, arg);
        CheckArguments([t], Unops[op], "unary expression")
    case BinaryExpression(op, left, right) =>
      if op == "|" && left.CallExpression? && IsDotlessZero(right) then
        var _ :- Call(ctx, left, Signed);
        Ok(Signed)
      else if op == "+" || op == "-" then
        Additive(ctx, e)
      else if op !in Binops then Err("unknown binary operator " + op)
      else
        var lt :- Expression(ctx, left);
        var rt :- Expression(ctx, right);
        CheckArguments([lt, rt], Binops[op], "operator " + op)
    case _ =>
      Err("invalid expression")
  }

  /**
   * An additive chain (lib/validate.js:930-955): the type of the first operand
   * decides whether every operand must be below Double or below Int.
   */
  function Additive(ctx: FunCtx, e: Expr): Result<ValueType>
    requires IsAdditive(e)
    decreases Size(e), 0
  {
    var operands := Leaves(e.left) + Leaves(e.right);
    AdditiveOperandsSmaller(e);
    var t :- Expression(ctx, operands[0]);
    if Subtype(t, Double) then
      var _ :- Operands(ctx, operands[1..], Double);
      Ok(Double)
    else if Subtype(t, Int) then
      if |operands| > 0x10_0000 then Err("too many additive operations without coercion")
      else
        var _ :- Operands(ctx, operands[1..], Int);
        Ok(Intish)
    else Err("expected type int or double")
  }

  /** Every operand has a type below `bound` (the loops at lib/validate.js:940-943 and 948-951). */
  function Operands(ctx: FunCtx, ops: seq<Expr>, bound: ValueType): Outcome
    decreases SizeSeq(ops), 2
  {
    if ops == [] then Pass
    else
      var t :- Expression(ctx, ops[0]);
      var _ :- CheckSubtype(t, bound, "additive operand");
      Operands(ctx, ops[1..], bound)
  }

  /** A comma expression (lib/validate.js:873-885): all but the last are checked, calls in void context; the last gives the type. */
  function SequenceItems(ctx: FunCtx, es: seq<Expr>): Result<ValueType>
    requires es != []
    decreases SizeSeq(es), 2
  {
    if |es| == 1 then Expression(ctx, es[0])
    else
      var _ :- (if es[0].CallExpression? then Call(ctx, es[0], Void) else Ignore(Expression(ctx, es[0])));
      SequenceItems(ctx, es[1..])
  }

  /** The argument types, left to right. */
  function Arguments(ctx: FunCtx, args: seq<Expr>): Result<seq<ValueType>>
    decreases SizeSeq(args), 2
  {
    if args == [] then Ok([])
    else
      var t :- Expression(ctx, args[0]);
      var ts :- Arguments(ctx, args[1..]);
      Ok([t] + ts)
  }

  /** Keeps a failure, drops a value. */
  function Ignore<T>(r: Result<T>): (o: Outcome)
    ensures o.Ok? <==> r.Ok?
  {
    if r.Ok? then Pass else Err(r.msg)
  }

  /** The address under a shifted heap access and the operand under `~~` are smaller than the whole. */
  lemma NestedOperandsSmaller(e: Expr)
    ensures e.MemberExpression? && e.property.BinaryExpression? ==> Size(e.property.left) < Size(e)
    ensures e.UnaryExpression? && e.argument.UnaryExpression? ==> Size(e.argument.argument) < Size(e)
  {
    if e.MemberExpression? && e.property.BinaryExpression? {
      assert Size(e.property) == 1 + Size(e.property.left) + Size(e.property.right);
    }
    if e.UnaryExpression? && e.argument.UnaryExpression? {
      assert Size(e.argument) == 1 + Size(e.argument.argument);
    }
  }

  /** The arguments of a call, and the index of a table call, are smaller than the call. */
  lemma CallOperandsSmaller(e: Expr)
    requires e.CallExpression?
    ensures SizeSeq(e.arguments) < Size(e)
    ensures e.callee.MemberExpression? && e.callee.property.BinaryExpression? ==> Size(e.callee.property.left) < Size(e)
  {
    if e.callee.MemberExpression? && e.callee.property.BinaryExpression? {
      assert Size(e.callee) == 1 + Size(e.callee.base) + Size(e.callee.property);
      assert Size(e.callee.property) == 1 + Size(e.callee.property.left) + Size(e.callee.property.right);
    }
  }

  /**
   * `call` (lib/validate.js:979-1027): a call in a context that expects
   * result type `t`. A direct call `f(...)` checks the arguments against `f`'s
   * signature; an indirect call `tbl[i & n](...)` needs a function table of
   * length n + 1 and an Intish index. Either way the signature's result must
   * be exactly `t`. (The source compares it with the table itself at 1024;
   * the expected type is meant.)
   */
  function Call(ctx: FunCtx, e: Expr, t: ValueType): Outcome
    decreases Size(e), 1
  {
    match e
    case CallExpression(callee, args) =>
      CallOperandsSmaller(e);
      if callee.Identifier? then
        var ts :- Arguments(ctx, args);
        var ft :- LookupIn(ctx, callee.name);
        var rt :- CheckArguments(ts, ft, "function call");
        CheckSameType(rt, t, "function call")
      else if callee.MemberExpression? && callee.computed && callee.base.Identifier? && IsMaskedIndex(callee.property) then
        var ft :- LookupIn(ctx, callee.base.name);
        if !ft.Table? then Err("expected function table")
        else
          var it :- Expression(ctx, callee.property.left);
          var _ :- CheckSubtype(it, Intish, "function pointer");
          if ft.length as real != callee.property.right.value.n + 1.0 then Err("unexpected function table mask")
          else
            var ts :- Arguments(ctx, args);
            var rt :- CheckArguments(ts, Fn(ft.entry), "function pointer call");
            CheckSameType(rt, t, "function call")
      else Err("invalid function call")
    case _ =>
      Err("invalid function call")
  }

  // ---------------------------------------------------------------------------
  // Statements (lib/validate.js:639-767)
  // ---------------------------------------------------------------------------

  /** `optExpression` (lib/validate.js:774-776), with the default the caller gives for a missing expression. */
  function OptExpression(ctx: FunCtx, e: Option<Expr>, default: ValueType): Result<ValueType> {
    if e.Some? then Expression(ctx, e.value) else Ok(default)
  }

  /**
   * `statement` (lib/validate.js:644-682). An if-test must be below Boolish
   * (line 721 names an undefined `types.boolish`); a case test is typed as an
   * expression (line 765 calls an undefined `this.literal`); a for-head
   * without an initialiser is skipped (line 746 reads `init.type` of null).
   */
  function Statement(ctx: FunCtx, s: Stmt): Outcome
    decreases StmtSize(s), 0
  {
    match s
    case BlockStatement(ss) =>
      Statements(ctx, ss)
    case ExpressionStatement(e) =>
      if e.CallExpression? then Call(ctx, e, Void) else Ignore(Expression(ctx, e))
    case IfStatement(test, cons, alt) =>
      var t :- Expression(ctx, test);
      var _ :- CheckSubtype(t, Boolish, "if test");
      var _ :- Statement(ctx, cons);
      if alt.Some? then Statement(ctx, alt.value) else Pass
    case ReturnStatement(arg) =>
      var t :- OptExpression(ctx, arg, Void);
      CheckSubtype(t, ctx.result, "return argument")
    case WhileStatement(test, body) =>
      var t :- Expression(ctx, test);
      var _ :- CheckSubtype(t, Int, "while loop condition");
      Statement(ctx, body)
    case DoWhileStatement(body, test) =>
      var _ :- Statement(ctx, body);
      var t :- Expression(ctx, test);
      CheckSubtype(t, Int, "do-while loop condition")
    case ForStatement(init, test, update, body) =>
      if init.Some? && init.value.ForDeclaration? then Err("illegal variable declaration in for-head")
      else
        var _ :- (if init.Some? then Ignore(Expression(ctx, init.value.expr)) else Pass);
        var t :- OptExpression(ctx, test, Int);
        var _ :- CheckSubtype(t, Int, "for loop condition");
        var _ :- Ignore(OptExpression(ctx, update, Void));
        Statement(ctx, body)
    case BreakStatement(_) =>
      Pass
    case ContinueStatement(_) =>
      Pass
    case LabeledStatement(_, body) =>
      Statement(ctx, body)
    case SwitchStatement(disc, cases) =>
      var t :- Expression(ctx, disc);
      Cases(ctx, cases, t)
    case _ =>
      Err("illegal " + KindName(KindOf(s)) + " node")
  }

  /** `statements` (lib/validate.js:639-641): each statement in order. */
  function Statements(ctx: FunCtx, ss: seq<Stmt>): Outcome
    decreases StmtsSize(ss), 1
  {
    if ss == [] then Pass
    else
      var _ :- Statement(ctx, ss[0]);
      Statements(ctx, ss[1..])
  }

  /** `switchStatement`/`case` (lib/validate.js:755-767): each case test below the discriminant's type, then its body. */
  function Cases(ctx: FunCtx, cs: seq<SwitchCase>, disc: ValueType): Outcome
    decreases CasesSize(cs), 1
  {
    if cs == [] then Pass
    else
      var _ :- (if cs[0].test.Some? then
                  var t :- Expression(ctx, cs[0].test.value);
                  CheckSubtype(t, disc, "case clause expression")
                else Pass);
      var _ :- Statements(ctx, cs[0].consequent);
      Cases(ctx, cs[1..], disc)
  }

  // ---------------------------------------------------------------------------
  // Properties of the checker
  // ---------------------------------------------------------------------------

  /** Overload resolution picks the first applicable alternative in declared order. */
  lemma {:induction false} FirstMatchIsFirst(alts: seq<Arrow>, ts: seq<ValueType>, k: nat)
    requires k < |alts| && Matches(alts[k], ts)
    requires forall j :: 0 <= j < k ==> !Matches(alts[j], ts)
    ensures FirstMatch(alts, ts) == Some(alts[k].result)
  {
    if k > 0 {
      FirstMatchIsFirst(alts[1..], ts, k - 1);
    }
  }

  /** When every alternative has the same result, that is what overload resolution gives. */
  lemma {:induction false} FirstMatchCommonResult(alts: seq<Arrow>, ts: seq<ValueType>, t: ValueType)
    requires forall j :: 0 <= j < |alts| ==> alts[j].result == t
    ensures FirstMatch(alts, ts).Some? ==> FirstMatch(alts, ts).value == t
  {
    if alts != [] && !Matches(alts[0], ts) {
      assert forall j :: 0 <= j < |alts| - 1 ==> alts[1..][j] == alts[j + 1];
      FirstMatchCommonResult(alts[1..], ts, t);
    }
  }

  /** Overload resolution fails exactly when no alternative applies. */
  lemma {:induction false} FirstMatchNone(alts: seq<Arrow>, ts: seq<ValueType>)
    ensures FirstMatch(alts, ts).None? <==> forall j :: 0 <= j < |alts| ==> !Matches(alts[j], ts)
  {
    if alts != [] {
      FirstMatchNone(alts[1..], ts);
      if !Matches(alts[0], ts) && FirstMatch(alts[1..], ts).None? {
        forall j | 0 <= j < |alts|
          ensures !Matches(alts[j], ts)
        {
          if j > 0 {
            assert alts[j] == alts[1..][j - 1];
          }
        }
      }
    }
  }

  /**
   * `checkArguments` on a plain signature: every argument below the parameter
   * at its position, no more arguments than parameters; the result is the
   * signature's result.
   */
  lemma CheckArgumentsOnArrow(ts: seq<ValueType>, a: Arrow, msg: string)
    ensures CheckArguments(ts, Fn(a), msg).Ok? <==>
      |ts| <= |a.params| && forall i :: 0 <= i < |ts| ==> Subtype(ts[i], a.params[i])
    ensures CheckArguments(ts, Fn(a), msg).Ok? ==> CheckArguments(ts, Fn(a), msg).value == a.result
  {
  }

  /** `checkArguments` with two arguments on a binary signature: each argument below its parameter. */
  lemma CheckArgumentsOnPair(a: ValueType, b: ValueType, sig: Arrow, msg: string)
    requires |sig.params| == 2
    ensures CheckArguments([a, b], Fn(sig), msg).Ok? <==> Subtype(a, sig.params[0]) && Subtype(b, sig.params[1])
    ensures CheckArguments([a, b], Fn(sig), msg).Ok? ==> CheckArguments([a, b], Fn(sig), msg).value == sig.result
  {
    assert [a, b][0] == a && [a, b][1] == b;
  }

  /** `checkArguments` on a signature of two alternatives, neither of which applies, fails. */
  lemma CheckArgumentsFailsOnTwo(ts: seq<ValueType>, a0: Arrow, a1: Arrow, msg: string)
    requires !Matches(a0, ts) && !Matches(a1, ts)
    ensures CheckArguments(ts, Overloaded([a0, a1]), msg).Err?
  {
    assert [a0, a1][1..] == [a1] && [a1][1..] == [];
  }

  /** `checkArguments` on an overloaded signature returns the result of the first applicable alternative. */
  lemma CheckArgumentsOnOverloaded(ts: seq<ValueType>, alts: seq<Arrow>, k: nat, msg: string)
    requires k < |alts| && Matches(alts[k], ts)
    requires forall j :: 0 <= j < k ==> !Matches(alts[j], ts)
    ensures CheckArguments(ts, Overloaded(alts), msg) == Ok(alts[k].result)
  {
    FirstMatchIsFirst(alts, ts, k);
  }

  /** `checkArguments` fails on an overloaded signature none of whose alternatives applies, and on anything not callable. */
  lemma CheckArgumentsFails(ts: seq<ValueType>, t: Type, msg: string)
    requires t.Overloaded? ==> forall j :: 0 <= j < |t.alts| ==> !Matches(t.alts[j], ts)
    requires !t.Fn?
    ensures CheckArguments(ts, t, msg).Err?
  {
    if t.Overloaded? {
      FirstMatchNone(t.alts, ts);
    }
  }

  /** The operand is typed, with a type below `bound`. */
  predicate Below(ctx: FunCtx, e: Expr, bound: ValueType) {
    Expression(ctx, e).Ok? && Subtype(Expression(ctx, e).value, bound)
  }

  /** Every operand is typed, with a type below `bound`. */
  predicate AllBelow(ctx: FunCtx, ops: seq<Expr>, bound: ValueType) {
    forall i :: 0 <= i < |ops| ==> Below(ctx, ops[i], bound)
  }

  lemma {:induction false} OperandsAllBelow(ctx: FunCtx, ops: seq<Expr>, bound: ValueType)
    ensures Operands(ctx, ops, bound).Ok? <==> AllBelow(ctx, ops, bound)
    decreases |ops|
  {
    if ops != [] {
      OperandsAllBelow(ctx, ops[1..], bound);
      AllBelowSplit(ctx, ops, bound);
      var t := Expression(ctx, ops[0]);
      assert Operands(ctx, ops, bound) ==
        if t.Err? then Err(t.msg)
        else if !Subtype(t.value, bound) then Err(CheckSubtype(t.value, bound, "additive operand").msg)
        else Operands(ctx, ops[1..], bound);
    }
  }

  /** No type lies below both Int and Double. */
  lemma IntAndDoubleDisjoint(t: ValueType)
    ensures !(Subtype(t, Int) && Subtype(t, Double))
  {
    assert !(Int in UpSet(t) && Double in UpSet(t)) by {
      match t
      case _ =>
    }
    SubtypeMatchesUpSet(t, Int);
    SubtypeMatchesUpSet(t, Double);
  }

  /**
   * Additive chains (lib/validate.js:930-955) over the flattened operands: the
   * chain is Double exactly when every operand is below Double, and Intish
   * exactly when every operand is below Int and there are at most 2^20 of
   * them; nothing else types.
   */
  lemma AdditiveTyping(ctx: FunCtx, e: Expr)
    requires IsAdditive(e)
    ensures var ops := Leaves(e.left) + Leaves(e.right);
      && (Expression(ctx, e) == Ok(Double) <==> AllBelow(ctx, ops, Double))
      && (Expression(ctx, e) == Ok(Intish) <==> AllBelow(ctx, ops, Int) && |ops| <= 0x10_0000)
      && (Expression(ctx, e).Ok? ==> Expression(ctx, e).value == Double || Expression(ctx, e).value == Intish)
  {
    var ops := Leaves(e.left) + Leaves(e.right);
    var t := Expression(ctx, ops[0]);
    var d, i := Operands(ctx, ops[1..], Double), Operands(ctx, ops[1..], Int);
    assert Expression(ctx, e) == Additive(ctx, e);
    assert Additive(ctx, e) ==
      if t.Err? then Err(t.msg)
      else if Subtype(t.value, Double) then (if d.Err? then Err(d.msg) else Ok(Double))
      else if Subtype(t.value, Int) then
        (if |ops| > 0x10_0000 then Err("too many additive operations without coercion")
         else if i.Err? then Err(i.msg) else Ok(Intish))
      else Err("expected type int or double");
    OperandsAllBelow(ctx, ops[1..], Double);
    OperandsAllBelow(ctx, ops[1..], Int);
    AllBelowSplit(ctx, ops, Double);
    AllBelowSplit(ctx, ops, Int);
    if Expression(ctx, ops[0]).Ok? {
      IntAndDoubleDisjoint(Expression(ctx, ops[0]).value);
    }
  }

  lemma AllBelowSplit(ctx: FunCtx, ops: seq<Expr>, bound: ValueType)
    requires ops != []
    ensures AllBelow(ctx, ops, bound) <==> Below(ctx, ops[0], bound) && AllBelow(ctx, ops[1..], bound)
  {
    if Below(ctx, ops[0], bound) && AllBelow(ctx, ops[1..], bound) {
      forall i | 0 <= i < |ops|
        ensures Below(ctx, ops[i], bound)
      {
        if i > 0 {
          assert ops[i] == ops[1..][i - 1];
        }
      }
    }
    if AllBelow(ctx, ops, bound) {
      forall i | 0 <= i < |ops| - 1
        ensures Below(ctx, ops[1..][i], bound)
      {
        assert ops[1..][i] == ops[i + 1];
      }
    }
  }

  /**
   * A heap access at a constant index `x[n]` (lib/validate.js:804-813),
   * computed or not: `x` must be a view, and the access has its element type.
   */
  lemma HeapAccessConstant(ctx: FunCtx, x: string, index: Expr, computed: bool)
    requires IsConstantIndex(index)
    ensures var e := MemberExpression(Identifier(x), index, computed);
      var t := LookupIn(ctx, x);
      && (Expression(ctx, e).Ok? <==> t.Ok? && t.value.View?)
      && (Expression(ctx, e).Ok? ==> Expression(ctx, e).value == t.value.elem)
  {
    var e := MemberExpression(Identifier(x), index, computed);
    var t := LookupIn(ctx, x);
    assert Expression(ctx, e) ==
      if t.Err? then Err(t.msg) else if t.value.View? then Ok(t.value.elem) else Err("expected view type");
  }

  /**
   * A shifted heap access `x[e >> n]` (lib/validate.js:815-838): `x` must be a
   * view, `e` below Intish, and `n` the base-2 logarithm of the view's byte
   * width; the access has the view's element type.
   */
  lemma HeapAccessShifted(ctx: FunCtx, x: string, index: Expr, n: real, raw: string)
    requires !HasDot(raw)
    ensures var e := MemberExpression(Identifier(x), BinaryExpression(">>", index, Literal(Num(n), raw)), true);
      var t := LookupIn(ctx, x);
      && (Expression(ctx, e).Ok? <==>
            && t.Ok? && t.value.View?
            && Expression(ctx, index).Ok? && Subtype(Expression(ctx, index).value, Intish)
            && n == Log2(t.value.bytes) as real)
      && (Expression(ctx, e).Ok? ==> Expression(ctx, e).value == t.value.elem)
  {
    var p := BinaryExpression(">>", index, Literal(Num(n), raw));
    assert !IsConstantIndex(p) && IsShiftedIndex(p);
    var e := MemberExpression(Identifier(x), p, true);
    var t := LookupIn(ctx, x);
    assert Expression(ctx, e) ==
      if t.Err? then Err(t.msg)
      else if !t.value.View? then Err("expected view type")
      else
        var a := Expression(ctx, index);
        if a.Err? then Err(a.msg)
        else if !Subtype(a.value, Intish) then Err(CheckSubtype(a.value, Intish, "heap address").msg)
        else if n != Log2(t.value.bytes) as real then Err("unexpected shift for view type")
        else Ok(t.value.elem);
  }

  /**
   * An unshifted heap access `x[e]` (lib/validate.js:840-855), for an index that
   * is neither a constant nor a shift: only a one-byte view of Intish elements
   * qualifies, with an index below Int; the access is Intish.
   */
  lemma HeapAccessUnshifted(ctx: FunCtx, x: string, index: Expr)
    requires !IsConstantIndex(index) && !IsShiftedIndex(index)
    ensures var e := MemberExpression(Identifier(x), index, true);
      var t := LookupIn(ctx, x);
      && (Expression(ctx, e).Ok? <==>
            && t.Ok? && t.value.View? && t.value.bytes == 1 && t.value.elem == Intish
            && Expression(ctx, index).Ok? && Subtype(Expression(ctx, index).value, Int))
      && (Expression(ctx, e).Ok? ==> Expression(ctx, e).value == Intish)
  {
  }

  /** A unary operator other than the two coercion shapes is checked against its row of the operator table. */
  lemma UnaryTyping(ctx: FunCtx, op: string, arg: Expr)
    requires op in Unops
    requires !(op == "~" && arg.UnaryExpression? && arg.unaryOp == "~") && !(op == "+" && arg.CallExpression?)
    ensures var t := Expression(ctx, arg);
      Expression(ctx, UnaryExpression(op, arg)) ==
        if t.Err? then Err(t.msg) else CheckArguments([t.value], Unops[op], "unary expression")
  {
  }

  /** A binary operator other than `+`, `-` and the call coercion is checked against its row of the operator table. */
  lemma BinaryTyping(ctx: FunCtx, op: string, left: Expr, right: Expr)
    requires op in Binops && op != "+" && op != "-"
    requires !(op == "|" && left.CallExpression? && IsDotlessZero(right))
    ensures var lt, rt := Expression(ctx, left), Expression(ctx, right);
      Expression(ctx, BinaryExpression(op, left, right)) ==
        if lt.Err? then Err(lt.msg)
        else if rt.Err? then Err(rt.msg)
        else CheckArguments([lt.value, rt.value], Binops[op], "operator " + op)
  {
  }

  /** Unary `+` (lib/validate.js:900-918 and the `+` row of lib/tables.js:90-94) can only give Double. */
  lemma UnaryPlusIsDouble(ctx: FunCtx, arg: Expr)
    ensures Expression(ctx, UnaryExpression("+", arg)).Ok? ==> Expression(ctx, UnaryExpression("+", arg)).value == Double
  {
    if !arg.CallExpression? {
      var alts := [Arrow([Signed], Double), Arrow([Unsigned], Double), Arrow([Doublish], Double)];
      PlusRow();
      UnaryTyping(ctx, "+", arg);
      var t := Expression(ctx, arg);
      if t.Ok? {
        var r := CheckArguments([t.value], Overloaded(alts), "unary expression");
        FirstMatchCommonResult(alts, [t.value], Double);
        assert r.Ok? ==> r.value == Double;
      }
    }
  }

  /** The `+` row of the unary operator table (lib/tables.js:90-94). */
  lemma PlusRow()
    ensures "+" in Unops && Unops["+"] == Overloaded([Arrow([Signed], Double), Arrow([Unsigned], Double), Arrow([Doublish], Double)])
  {
  }

  /** Bitwise or (lib/validate.js:920-928 and 957-970, and the `|` row of lib/tables.js:53-86) can only give Signed. */
  lemma BitwiseOrIsSigned(ctx: FunCtx, left: Expr, right: Expr)
    ensures Expression(ctx, BinaryExpression("|", left, right)).Ok? ==> Expression(ctx, BinaryExpression("|", left, right)).value == Signed
  {
    if !(left.CallExpression? && IsDotlessZero(right)) {
      assert "|" in Binops && Binops["|"] == SignedBitwise;
      BinaryTyping(ctx, "|", left, right);
    }
  }

  /** `~~e` (lib/validate.js:887-898) is the double-to-signed coercion: `e` must be below Double. */
  lemma DoubleToSigned(ctx: FunCtx, e: Expr)
    ensures var r := Expression(ctx, UnaryExpression("~", UnaryExpression("~", e)));
      && (r.Ok? <==> Expression(ctx, e).Ok? && Subtype(Expression(ctx, e).value, Double))
      && (r.Ok? ==> r.value == Signed)
  {
    var t := Expression(ctx, e);
    assert Expression(ctx, UnaryExpression("~", UnaryExpression("~", e))) ==
      if t.Err? then Err(t.msg)
      else if !Subtype(t.value, Double) then Err(CheckSubtype(t.value, Double, "double->signed coercion").msg)
      else Ok(Signed);
  }

  /** A conditional (lib/validate.js:857-871) has an Int test and two arms of the same type, Int or Double. */
  lemma ConditionalTyping(ctx: FunCtx, test: Expr, cons: Expr, alt: Expr, t: ValueType)
    ensures Expression(ctx, ConditionalExpression(test, cons, alt)) == Ok(t) <==>
      && Expression(ctx, test).Ok? && Subtype(Expression(ctx, test).value, Int)
      && Expression(ctx, cons) == Ok(t) && Expression(ctx, alt) == Ok(t)
      && (t == Int || t == Double)
  {
  }

  /**
   * An assignment (lib/validate.js:793-802) to a name or a heap location has
   * the type of its right-hand side, which must lie below the target's type.
   */
  lemma AssignmentTyping(ctx: FunCtx, op: string, left: Expr, right: Expr)
    ensures var r := Expression(ctx, AssignmentExpression(op, left, right));
      && (r.Ok? <==>
            && (left.Identifier? || left.MemberExpression?)
            && Expression(ctx, left).Ok? && Expression(ctx, right).Ok?
            && Subtype(Expression(ctx, right).value, Expression(ctx, left).value))
      && (r.Ok? ==> r == Expression(ctx, right))
  {
  }

  /** An item of a comma expression other than the last: a call in void context, or any expression that types. */
  predicate LeadingItemOk(ctx: FunCtx, e: Expr) {
    if e.CallExpression? then Call(ctx, e, Void).Ok? else Expression(ctx, e).Ok?
  }

  /** A comma expression (lib/validate.js:873-885) types exactly when every leading item is fine and the last types; it has the last item's type. */
  lemma {:induction false} SequenceTyping(ctx: FunCtx, es: seq<Expr>)
    requires es != []
    ensures Expression(ctx, SequenceExpression(es)) == SequenceItems(ctx, es)
    ensures SequenceItems(ctx, es).Ok? <==>
      (forall i :: 0 <= i < |es| - 1 ==> LeadingItemOk(ctx, es[i])) && Expression(ctx, es[|es| - 1]).Ok?
    ensures SequenceItems(ctx, es).Ok? ==> SequenceItems(ctx, es) == Expression(ctx, es[|es| - 1])
    decreases |es|
  {
    assert Expression(ctx, SequenceExpression(es)) == SequenceItems(ctx, es);
    if |es| > 1 {
      var head := if es[0].CallExpression? then Call(ctx, es[0], Void) else Ignore(Expression(ctx, es[0]));
      assert head.Ok? == LeadingItemOk(ctx, es[0]);
      assert SequenceItems(ctx, es) == if head.Err? then Err(head.msg) else SequenceItems(ctx, es[1..]);
      SequenceTyping(ctx, es[1..]);
      assert forall i :: 1 <= i < |es| ==> es[i] == es[1..][i - 1];
    }
  }

  /** The argument list types exactly when each argument does, and then gives their types in order. */
  lemma {:induction false} ArgumentsTyping(ctx: FunCtx, args: seq<Expr>)
    ensures Arguments(ctx, args).Ok? <==> forall i :: 0 <= i < |args| ==> Expression(ctx, args[i]).Ok?
    ensures Arguments(ctx, args).Ok? ==>
      |Arguments(ctx, args).value| == |args| &&
      forall i :: 0 <= i < |args| ==> Arguments(ctx, args).value[i] == Expression(ctx, args[i]).value
    decreases |args|
  {
    if args != [] {
      ArgumentsTyping(ctx, args[1..]);
      assert forall i :: 1 <= i < |args| ==> args[i] == args[1..][i - 1];
    }
  }

  /**
   * A direct call `f(...)` (lib/validate.js:981-992) checks its arguments against
   * `f`'s signature, whose result must be exactly the type the context expects.
   */
  lemma DirectCallTyping(ctx: FunCtx, f: string, args: seq<Expr>, t: ValueType)
    ensures Call(ctx, CallExpression(Identifier(f), args), t).Ok? <==>
      && Arguments(ctx, args).Ok? && LookupIn(ctx, f).Ok?
      && CheckArguments(Arguments(ctx, args).value, LookupIn(ctx, f).value, "function call") == Ok(t)
  {
  }

  /**
   * An indirect call `tbl[i & n](...)` (lib/validate.js:994-1025): `tbl` must be
   * a function table of length n + 1, `i` below Intish, and the entry
   * signature must accept the arguments and return exactly the expected type.
   */
  lemma IndirectCallTyping(ctx: FunCtx, tbl: string, index: Expr, n: real, raw: string, args: seq<Expr>, t: ValueType)
    requires !HasDot(raw)
    ensures var e := CallExpression(MemberExpression(Identifier(tbl), BinaryExpression("&", index, Literal(Num(n), raw)), true), args);
      var ft := LookupIn(ctx, tbl);
      Call(ctx, e, t).Ok? <==>
        && ft.Ok? && ft.value.Table?
        && Expression(ctx, index).Ok? && Subtype(Expression(ctx, index).value, Intish)
        && ft.value.length as real == n + 1.0
        && Arguments(ctx, args).Ok?
        && CheckArguments(Arguments(ctx, args).value, Fn(ft.value.entry), "function pointer call") == Ok(t)
  {
  }

  /** A statement list passes exactly when each of its statements does. */
  lemma {:induction false} StatementsAll(ctx: FunCtx, ss: seq<Stmt>)
    ensures Statements(ctx, ss).Ok? <==> forall i :: 0 <= i < |ss| ==> Statement(ctx, ss[i]).Ok?
    decreases |ss|
  {
    if ss != [] {
      StatementsAll(ctx, ss[1..]);
      assert forall i :: 1 <= i < |ss| ==> ss[i] == ss[1..][i - 1];
    }
  }

  /** Only the void context accepts a type below Void, and Void is below nothing else. */
  lemma VoidIsIsolated(t: ValueType)
    ensures Subtype(Void, t) <==> t == Void
    ensures Subtype(t, Void) <==> t == Void
  {
    SubtypeMatchesUpSet(Void, t);
    SubtypeMatchesUpSet(t, Void);
  }

  /**
   * `returnStatement` (lib/validate.js:728-730): a bare return is allowed only
   * in a Void function; `return e` needs `e` below the declared result.
   */
  lemma ReturnTyping(ctx: FunCtx, arg: Option<Expr>)
    ensures arg.None? ==> (Statement(ctx, ReturnStatement(arg)).Ok? <==> ctx.result == Void)
    ensures arg.Some? ==> (Statement(ctx, ReturnStatement(arg)).Ok? <==>
      Expression(ctx, arg.value).Ok? && Subtype(Expression(ctx, arg.value).value, ctx.result))
  {
    VoidIsIsolated(ctx.result);
  }

  /** `ifStatement` (lib/validate.js:720-725): a test below Boolish, then both branches. */
  lemma IfTyping(ctx: FunCtx, test: Expr, cons: Stmt, alt: Option<Stmt>)
    ensures Statement(ctx, IfStatement(test, cons, alt)).Ok? <==>
      && Expression(ctx, test).Ok? && Subtype(Expression(ctx, test).value, Boolish)
      && Statement(ctx, cons).Ok?
      && (alt.Some? ==> Statement(ctx, alt.value).Ok?)
  {
  }

  /** Declarations, empty statements and any other kind are illegal inside a function body. */
  lemma IllegalStatements(ctx: FunCtx, s: Stmt)
    requires s.VariableDeclaration? || s.FunctionDeclaration? || s.EmptyStatement? || s.OtherStatement?
    ensures Statement(ctx, s).Err?
  {
  }
}
